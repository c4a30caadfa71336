# Verified model of simple_parallel

simple_parallel lets one program run over many MPI ranks. One rank, the leader, runs the program. When it
enters a parallel region, the workers' memory is brought up to date with the leader's and they run the region
too; inside it, the iterations of a loop are dealt to the ranks by a dynamic schedule, and when the region
ends the reduce areas are combined into the leader's copy. This project models those three mechanisms in Dafny
and proves what they promise. `dafny verify dfyconfig.toml` checks all of it.

## Main results

**The schedule** (`Protocol*.dfy`, `FirstRound*.dfy`, `Communicator.dfy`, `Handlers.dfy`). The protocol is a step
relation: one step is one MPI call of one rank, one move between two calls, one delivery by the network, or one
collective. Every ordered
pair of ranks has a channel that is split into what has arrived and what is under way; the three probes of a
client's `next` are separate steps, so the race between the last value and the end mark is there. For every
number of clients and schedules, all credits, all ranges and every interleaving:

* every value that the iterator has passed is held exactly once, by the root, by one client, or on the way to
  one client (`ExactlyOnce`), and what every rank holds is in ascending order;
* a client that leaves has received everything that was ever sent to it (`SafeShutdown`), the root deals
  nothing after the end mark and cleans up once (`NoValueAfterDone`), at the end all channels are empty
  (`Quiescence`), and no message of one schedule is ever under way in another (`Isolation`);
* until the schedule is over a step that is not a vain poll can be taken (`NoDeadlock`), each such step lowers a
  natural number (`Termination`), and from every state the schedule can be brought to its end (`CanFinish`);
* credit is kept as the code keeps it: the first round answers requests without receiving them, so up to twice
  a client's credit is under way to it (`Credit`), and for every credit this maximum is reached
  (`CreditIsTight`); the first round is balanced (`FirstRoundBalanced`).

The handlers are classes with the source's loops. They run over a communicator with one method per MPI call.
A call names the rank, the tag and the payload; it is allowed only where the protocol makes this very call, it
lets all other ranks and the network run arbitrarily before it, and its answer is what is visible in the
channel at that moment. The handlers pass on and branch on nothing but these answers and their own fields; so
they refine the step relation, their loops end, and a rank that drives its iterator uses exactly the positions
it was given (`Drive`).

**Generators** (`Gss.dfy`, `Collapse.dfy`, `Threads.dfy`). Guided chunks partition the range, never grow, and
there are at most `P * (floor(log2 n) + 1)` and at most `ceil(n / g)` of them. The triangular stepping function
is an action of the natural numbers, the collapsed generator's chunks partition the triangle, single steps
visit exactly a chunk, and the pull loop of a rank's threads runs each task once. The generators
compute in 64-bit arithmetic that wraps around.

**Memory** (`Pages.dfy`, `PageTable.dfy`, `PageScan.dfy`, `Replica.dfy`, `ReduceAreas.dfy`, `Wire.dfy`, `BigMpi.dfy`,
`MappingLog.dfy`). The scan classifies pages exactly; the worker posts the same broadcasts as the leader, with
sizes that it derives from received data only, and decodes what the leader meant; after every entry the
worker's copy of every written live byte is the leader's, fresh memory that nobody has written is zero, and the
reduce areas hold the units of their operators (`Coherent`, `FreshReadsZero`, `EntersAtUnit`).

**All together** (`Reduction.dfy`, `Elements.dfy`, `Headline.dfy`, `Region.dfy`). A region is followed from the sync
through the schedule, the threads of every rank and the chunked reductions of all areas, one after the other
in one memory, to the exit: every element of every area of integers or booleans in the leader's memory is then
its value at the entry combined with the sequential fold of the loop (`RegionReduces`; `RegionComputes` says it in
plain integers; `GuidedLoop`, `FortranLoop` and `TriangularLoop` say it for the loops of the bindings). `RegionCanRun` shows that there are such regions.

## Where the code and the naive promise part

* The C generator computes `end - current` in 64-bit unsigned arithmetic. With the bounds out of order it
  deals chunks although the sequential loop would do nothing. `CExactlyWhen` says for which inputs the loop is
  the sequential one. The Fortran generator computes in signed 64-bit integers: the range of all of them is not
  visited at all, and a range that is inverted by more than 2^63 may be dealt as chunks (`FortranExactlyWhen`).
  `LanguagesAgree` says when the two deal the same chunks.
* The counter of the threads that are still in a loop is a local variable of the thread that has set the
  schedule up, and no barrier follows the loop. The schedule is deleted once, whatever a dead variable reads
  as, if and only if that thread is the last to leave (`DeletedExactlyWhen`); `HolderFirst` is a run of two
  threads in which it is not.
* `my_gen_func` runs out of the triangle when it is asked to go on from the terminal point, so advancing by
  `a` and then by `b` is advancing by `a + b` if and only if `a` points do not exhaust the triangle or `b` is 0
  (`AdditiveExactlyWhen`).
* The two assertions of the collapsed generator never fail if and only if `all_index_count` is the number of
  points left (`AssertsNeverFail`).
* What a worker changes outside reduce areas is undone by the next entry if and only if the leader dirtied the
  same page (`UpdatedExactlyWhen`); `StraySurvives` is a run in which it is not.
* The nested loops of the first round end if and only if the root's own credit is 0 or there are fewer values
  than the clients have credit (`EndsExactlyWhen`); the iterator's constructor sees to the former.
* A ring of send requests holds one credit, while twice the credit can be under way (`CreditIsTight`). Whether
  a ring ever overflows depends on when sends complete, which is not modelled.
* The comment on the first round says that requests are handled; its requests stay in the channel, and
  `Credit` counts them among the leftovers that the root throws away in the end.

## Assumptions

* Messages between two ranks arrive in the order they were sent. Section 3.5 of MPI 4.0 promises this for
  messages that match the same receive; the model has it across tags.
* `isend` takes its payload when it is posted and completes eagerly; the code advances the iterator at once.
* Every rank drives its iterator until it is done, and loop bodies end. A rank that blocks, or that has polled
  in vain and still has no value to find, lets the others run until one of them has made a step that is not a
  vain poll.
* The credit of the root itself is 0, as the iterator's constructor sets it.
* The generators' 64-bit arithmetic wraps around. For C's unsigned integers that is their meaning; the overflow of
  Fortran's signed integers is not defined by its standard, and wrap-around is what the machine does.
* Collectives match in the order in which they are posted (section 6.14 of MPI 4.0).
* The reduction operator is a commutative monoid on integers or booleans.
* The threads of a rank combine their private copies into the rank's elements one thread after the other.
* During a sync only the leader's main thread runs. All workers receive the same broadcasts, so one worker
  stands for each of them.
* Outside the reduce areas, a live byte that a worker changed in a region is on a page that the leader dirties
  too, or is not one that the leader has written since its allocation. This is the guard of `Replica.Enter`.
* New mappings start soft-dirty and read as zero, every write makes its page dirty and present, entering a region
  clears the dirty bits, and swapping a page out or in changes neither its bytes nor its dirty bit.

## Model

| member | source | states |
|---|---|---|
| FirstRound.DealFromBalanced | include/simple_parallel/cxx/dynamic_schedule.h:103-138 | from every position of the nested loops the dealing uses up the credits or the values and leaves every rank at its share of some round and cut |
| FirstRound.Balanced | include/simple_parallel/cxx/dynamic_schedule.h:100-138 | the first round sends min(values, total credit) values; for some round r and cut c a rank before the cut gets min(credit, r + 1) and another min(credit, r), so no ring of requests is overfilled by it |
| FirstRound.BalancedAlways | include/simple_parallel/cxx/dynamic_schedule.h:100-138 | whenever m values of the order have been dealt, the ranks before some cut have got one more than the others, up to their credits: one value per rank and pass |
| FirstRoundEnds.EndsExactlyWhen | include/simple_parallel/cxx/dynamic_schedule.h:103-138 | for any credit of the root, the nested loops end if and only if that credit is 0 or the clients' credit exceeds the values; so forcing it to 0 is needed |
| FirstRoundEnds.ServesTheOrder | include/simple_parallel/cxx/dynamic_schedule.h:103-138 | the steps of the nested loops serve the ranks in exactly the dealing order |
| ProtocolInvariant.ClientStepOk | include/simple_parallel/cxx/dynamic_schedule.h:254-331 | every call of a client keeps the condition of its link: what is under way in both directions, by tag and order, and what the client holds |
| ProtocolInvariant.SendValueOk | include/simple_parallel/cxx/dynamic_schedule.h:125-135 | sending the next value to a client, in the first round or as an answer, keeps the link's condition and the balance of credit |
| ProtocolInvariant.CloseOk | include/simple_parallel/cxx/dynamic_schedule.h:194-199 | when the drain finds no request of a client that has said farewell, that client's channel to the root is empty |
| ProtocolSafety.GatherOk | include/simple_parallel/cxx/dynamic_schedule.h:384-393 | the all_gather that opens a schedule re-establishes the invariant, because the channels of the last one are empty |
| ProtocolSafety.StepOk | include/simple_parallel/cxx/dynamic_schedule.h:94-332 | every step of every rank and of the network keeps the invariant |
| ProtocolSafety.RunOk | include/simple_parallel/cxx/dynamic_schedule.h:94-395 | the invariant holds after every run, over any number of schedules and any interleaving |
| ProtocolTheorems.ExactlyOnce | include/simple_parallel/cxx/dynamic_schedule.h:103-171 | in every reachable state each value that the iterator has passed is held exactly once and nothing else is held; sequences ascend; at the end the parts make up the range |
| ProtocolTheorems.Credit | include/simple_parallel/cxx/dynamic_schedule.h:117-165 | requests, values and one in hand add up to the credit plus the client's share of the first round; at most twice the credit is under way; credit plus share is drained |
| ProtocolTheorems.FirstRoundBalanced | include/simple_parallel/cxx/dynamic_schedule.h:100-138 | in every run, once the first round is over, its values went out balanced, and they are the first ones of the range |
| ProtocolTheorems.FirstRoundAlwaysBalanced | include/simple_parallel/cxx/dynamic_schedule.h:100-138 | in every state from the first value on, also in the middle of the first round, what it has dealt so far is spread evenly |
| ProtocolTheorems.SafeShutdown | include/simple_parallel/cxx/dynamic_schedule.h:310-319 | a client about to leave or gone has received every value ever dealt to it, and the root has dealt its whole range |
| ProtocolTheorems.NoValueAfterDone | include/simple_parallel/cxx/dynamic_schedule.h:167-181 | the stages of the root only go forward, so it cleans up once, and from the first end mark on it deals and consumes nothing |
| ProtocolTheorems.Quiescence | include/simple_parallel/cxx/dynamic_schedule.h:183-200 | when the root leaves the clean-up every client is out and all channels are empty |
| ProtocolTheorems.Isolation | include/simple_parallel/cxx/dynamic_schedule.h:373-394 | any message under way at any time belongs to the schedule that is running, so none is received by a later one |
| ProtocolTightness.CreditIsTight | include/simple_parallel/cxx/dynamic_schedule.h:117-165 | for every credit there is a run in which twice that many values are under way to the client |
| ProtocolProgress.StepLess | include/simple_parallel/cxx/dynamic_schedule.h:94-332 | a vain poll leaves the measure alone, every other step of a schedule lowers it |
| ProtocolProgress.NoDeadlock | include/simple_parallel/cxx/dynamic_schedule.h:173-200 | in every state before the end of a schedule some step that is not a vain poll is enabled; a client has to move only if it is posting requests or can see the end mark |
| ProtocolProgress.Termination | include/simple_parallel/cxx/dynamic_schedule.h:140-200 | no interleaving takes more useful steps than the measure of its first state |
| ProtocolProgress.CanFinish | include/simple_parallel/cxx/dynamic_schedule.h:173-200 | from every reachable state the schedule can be brought to its end, in no more steps than the measure |
| Communicator.ForeignRun | include/simple_parallel/cxx/dynamic_schedule.h:94-332 | whatever others do, a rank's place, values and iterator stay, except that others let it out of the barrier |
| Communicator.Comm.RootBarrier | include/simple_parallel/cxx/dynamic_schedule.h:216-217 | the root's barrier ends, with the first round to come |
| Communicator.Comm.RootIsend | include/simple_parallel/cxx/dynamic_schedule.h:125-133 | the message with this tag and payload, and no other, goes to this rank, and the root's position in the range moves with a value |
| Communicator.Comm.RootIprobe | include/simple_parallel/cxx/dynamic_schedule.h:143-150 | a probe of any source finds a request if and only if one has arrived, and names a rank whose request has |
| Communicator.Comm.RootAllGather | include/simple_parallel/cxx/dynamic_schedule.h:384-385 | the root learns its own size and those of all clients, and stands before the barrier of the new schedule with nothing consumed |
| Communicator.Comm.ClientIprobe | include/simple_parallel/cxx/dynamic_schedule.h:250-264 | a client's probe finds a message with the tag if and only if one has arrived from the root |
| Communicator.Comm.ClientRecv | include/simple_parallel/cxx/dynamic_schedule.h:321-325 | the payload is that of the first arrived message with the tag, and that message is taken |
| Communicator.Comm.RootRecv | include/simple_parallel/cxx/dynamic_schedule.h:153-198 | the receive from this rank with this tag ends, with the first such message; for a farewell it waits, and nothing is dealt meanwhile |
| Handlers.ServerHandler.constructor | include/simple_parallel/cxx/dynamic_schedule.h:209-220 | the constructor ends at the root's first value or with the schedule over, and the values of the first round went out in the balanced order |
| Handlers.ServerHandler.FirstTimeHandleClientRequest | include/simple_parallel/cxx/dynamic_schedule.h:103-138 | the nested loops end, and have sent the next values, one each, to exactly the ranks of the balanced order |
| Handlers.ServerHandler.HandleClientRequest | include/simple_parallel/cxx/dynamic_schedule.h:140-171 | the request loop ends with the root at a value of its own or, the range used up, with the schedule over; the root consumes nothing in it |
| Handlers.ServerHandler.Answer | include/simple_parallel/cxx/dynamic_schedule.h:150-165 | the request of the rank that was found is received, and that rank gets the value at the iterator |
| Handlers.ServerHandler.FinishCleanup | include/simple_parallel/cxx/dynamic_schedule.h:173-200 | end marks to every client, farewells from every client in turn, and the leftover requests: it ends, with the schedule over and nothing more dealt |
| Handlers.ServerHandler.Next | include/simple_parallel/cxx/dynamic_schedule.h:237-240 | the root consumes exactly the value at its iterator, which moves on |
| Handlers.ClientHandler.constructor | include/simple_parallel/cxx/dynamic_schedule.h:274-288 | a new client holds its first value, or has left without any |
| Handlers.ClientHandler.LeaderGenFinished | include/simple_parallel/cxx/dynamic_schedule.h:254-265 | true if the end mark was received before or is visible, and then it is remembered; false only while it is not visible |
| Handlers.ClientHandler.Fetch | include/simple_parallel/cxx/dynamic_schedule.h:310-330 | the polling loop ends with exactly one more value taken and asked for, or with the client out and none taken |
| Handlers.ClientHandler.Next | include/simple_parallel/cxx/dynamic_schedule.h:307-331 | one more value, which is the handler's value, or the end |
| Handlers.DriveRoot | include/simple_parallel/cxx/dynamic_schedule.h:209-240 | the root's loop over its handler ends and uses exactly the positions dealt to nobody else, in order |
| Handlers.DriveClient | include/simple_parallel/cxx/dynamic_schedule.h:274-331 | a client's loop over its handler ends, after the whole range has been dealt, and uses exactly the positions dealt to it, in order |
| Handlers.Drive | include/simple_parallel/cxx/dynamic_schedule.h:373-394 | on every rank, from the all_gather on: a single rank uses the range itself, the root and the clients exactly the positions they own, and all ends between two schedules |
| Handlers.DriveSingle | include/simple_parallel/cxx/dynamic_schedule.h:334-378 | with one rank the iterator yields the range itself |
| Gss.Partition | src/c_binding/c_dynamic_schedule_binding.cc:121-134 | the loops over the chunks visit exactly the range, begin, begin + 1, and so on, each index once |
| Gss.ChunksShrink | src/c_binding/c_dynamic_schedule_binding.cc:126-134 | no chunk is empty, each starts where the last one ended and is no larger, none exceeds the larger of the grain and the first proportional share, and they span the range |
| Gss.ChunksGuided | src/c_binding/c_dynamic_schedule_binding.cc:126-128 | every chunk takes the whole rest or at least the grain, and at least its share of the rest, and is no larger than it must be |
| Gss.VisitedInOrder | src/c_binding/c_dynamic_schedule_binding.cc:121-134 | the k-th index that the chunks visit is the k-th of the loop, and there are as many |
| Gss.RunTask | include/simple_parallel/c/c_dynamic_schedule_binding.h:131-135 | the counting loop over a task visits its indices |
| Gss.RunTasks | include/simple_parallel/c/c_dynamic_schedule_binding.h:117-136 | the loops over all tasks visit what the tasks hold, in order |
| Gss.RunDo | src/fortran_binding/fortran_dynamic_schedule_binding.f90:147-149 | a `do` loop over an inclusive chunk visits its indices |
| Gss.Halving | src/c_binding/c_dynamic_schedule_binding.cc:126-128 | while a half remains, every chunk takes at least a proportional part of it, so that many chunks bring the rest below the half |
| Gss.CountBound | src/c_binding/c_dynamic_schedule_binding.cc:121-134 | with fewer than 2^k indices left, at most k chunks per process |
| Gss.CountByGrain | src/c_binding/c_dynamic_schedule_binding.cc:127-134 | with a grain, no more chunks than grains fit, rounded up |
| Gss.GssState.Generate | src/c_binding/c_dynamic_schedule_binding.cc:115-135 | the generator yields the specified tasks one by one, and at the end leaves state and buffer alone |
| Gss.TaskIterator.constructor | src/c_binding/c_dynamic_schedule_binding.cc:34-36 | a new iterator stands before all tasks of the generator |
| Gss.TaskIterator.Advance | src/c_binding/c_dynamic_schedule_binding.cc:38-47 | advancing drops exactly the first of the tasks to come |
| Gss.CInOrder | src/c_binding/c_dynamic_schedule_binding.cc:115-135 | with the bounds in order no 64-bit operation wraps, and the tasks visit the range exactly |
| Gss.CExactlyWhen | src/c_binding/c_dynamic_schedule_binding.cc:115-135 | the parallel loop visits what the sequential one does if and only if the bounds are in order or the wrapped rest is a single task |
| Gss.GssScheduler.GssNext | src/fortran_binding/fortran_dynamic_schedule_binding.f90:132-152 | in signed 64-bit arithmetic, the Fortran generator yields the specified inclusive chunks one by one |
| Gss.FortranExactlyWhen | src/fortran_binding/fortran_dynamic_schedule_binding.f90:132-152 | for all 64-bit bounds, the Fortran loop visits what the sequential one does if and only if the range is not that of all integers, and not inverted by more than 2^63 unless the wrapped rest is a single chunk |
| Gss.FortranOrderExactlyWhen | src/fortran_binding/fortran_dynamic_schedule_binding.f90:132-152 | on the same condition the k-th visited index is begin + k, for as many as there are |
| Gss.WrapsAround | src/fortran_binding/fortran_dynamic_schedule_binding.f90:137-151 | the signed 64-bit result differs from the exact one by a multiple of 2^64 |
| Gss.LanguagesAgree | src/fortran_binding/fortran_dynamic_schedule_binding.f90:132-162 | Fortran on [b, e] and C on [b, e + 1) deal the same chunks if and only if the range is not inverted and has fewer than 2^63 indices, or the wrapped rest is a single chunk |
| Gss.ShareIs | src/c_binding/c_dynamic_schedule_binding.cc:126 | the division of the generators is the share rounded up |
| Collapse.MyGenFunc | example/c_example.c:11-35 | the loops entered in the middle compute the specified walk, point and count |
| Collapse.WalkExact | example/c_example.c:21-34 | a walk takes as many points as asked for or all that are left, and then stands that many further, or at the terminal point |
| Collapse.AdditiveExactlyWhen | example/c_example.c:11-35 | advancing by a and then b is advancing by a + b, in point and count, if and only if a does not exhaust the triangle or b is 0 |
| Collapse.PointsExact | example/c_example.c:21-31 | the points of a walk are exactly those from its begin on, each once, in the order of how many are left |
| Collapse.TriClosed | example/c_example.c:21-31 | the closed form of the number of points above a row |
| Collapse.RunChunk | include/simple_parallel/c/c_dynamic_schedule_binding.h:186-192 | single steps from a chunk's begin do reach its end and visit exactly its points |
| Collapse.CollapseState.Generate | src/c_binding/c_dynamic_schedule_binding.cc:152-182 | one call yields the next of the specified chunks, the end, or a failed assertion, and moves the state on |
| Collapse.AssertsNeverFail | src/c_binding/c_dynamic_schedule_binding.cc:158-176 | no assertion fails in the whole sequence of calls if and only if the count given is the number of points left |
| Collapse.ChunksPartition | src/c_binding/c_dynamic_schedule_binding.cc:152-182 | the chunks visit every point of the triangle from the begin on, once and in order, and are as many as guided chunks of an interval of that length |
| Collapse.ChunksAreGuided | src/c_binding/c_dynamic_schedule_binding.cc:165-181 | the k-th chunk begins and ends as many points from the begin on as the k-th guided chunk of an interval does |
| Threads.CounterLivesExactlyWhen | include/simple_parallel/c/c_dynamic_schedule_binding.h:101-143 | the counter is never touched after the thread whose variable it is has left, if and only if that thread leaves last |
| Threads.DeletedExactlyWhen | include/simple_parallel/c/c_dynamic_schedule_binding.h:137-143 | the schedule is deleted once, whatever a dead counter reads as, if and only if the counter's thread leaves last |
| Threads.DeletedOnce | include/simple_parallel/c/c_dynamic_schedule_binding.h:114-143 | in every run, while the counter has not been read dead, the schedule is deleted exactly when all threads are out and not touched later; the generator's state is used only while it lives |
| Threads.TeamCanFinish | include/simple_parallel/c/c_dynamic_schedule_binding.h:117-143 | from every state of a team all threads can be brought out |
| Threads.HolderFirst | include/simple_parallel/c/c_dynamic_schedule_binding.h:137-143 | the run of two threads in which the counter's thread leaves first: the schedule is deleted only if the dead counter happens to read as 1 |
| Threads.TeamExactlyOnce | include/simple_parallel/c/c_dynamic_schedule_binding.h:117-136 | every task of a rank is run once, by one thread, in order on each thread |
| Threads.TeamTerminates | include/simple_parallel/c/c_dynamic_schedule_binding.h:117-143 | every turn brings the team nearer to its end, and only a team whose threads are all out has no turn left |
| Reduction.DealingDoesNotMatter | src/simple_parallel/leader.cc:657-662 | however items are dealt to ranks, the ranks' folds combine to the fold over all items |
| Reduction.FoldPieces | include/simple_parallel/c/c_dynamic_schedule_binding.h:131-135 | folding the contributions of the pieces of a loop is folding over the loop |
| BigMpi.ChunksCover | src/simple_parallel/bigmpi.cc:47-59 | the calls' counts fit an int, are all full but the last, and add up to the whole |
| BigMpi.Bcast | src/simple_parallel/bigmpi.cc:41-62 | a receiver's buffer becomes the root's, and the counts posted depend on the element count alone |
| BigMpi.Reduce | src/simple_parallel/bigmpi.cc:86-115 | chunked reduction in place does to every element what one call on all would |
| BigMpi.PiecesAreChunks | src/simple_parallel/bigmpi.cc:136-145 | the asynchronous broadcasts of an area have the counts of the chunked collective on it |
| BigMpi.AreaPiecesTile | src/simple_parallel/bigmpi.cc:132-142 | every byte of an area lies in exactly one posted broadcast |
| BigMpi.SentOnce | src/simple_parallel/bigmpi.cc:132-147 | every byte of every area is broadcast exactly once, and nothing else is |
| BigMpi.RequestWindow.Post | src/simple_parallel/bigmpi.cc:118-130 | at most 256 requests are outstanding, and each is outstanding or completed, once, whichever the wait picks |
| BigMpi.SyncAreas | src/simple_parallel/bigmpi.cc:117-151 | all pieces of all areas are posted in order, each completes once, none is left |
| Pages.OuterExact | src/simple_parallel/include/pagemap.h:70-86 | a page is in the outer range if and only if some byte of the area is on it |
| Pages.InnerExact | src/simple_parallel/include/pagemap.h:88-107 | a page is in the inner range if and only if all its bytes are in the area |
| Pages.InnerAdjoint | src/simple_parallel/include/pagemap.h:88-114 | a page range lies in the inner range if and only if its bytes lie in the area |
| Pages.OuterAdjoint | src/simple_parallel/include/pagemap.h:70-114 | a page range contains the outer range if and only if its bytes contain the area |
| Pages.PagesRoundTrip | src/simple_parallel/include/pagemap.h:70-114 | the page range of the bytes of a page range is that range |
| Pages.OverlapExact | src/simple_parallel/leader.cc:148-151 | areas that are not empty overlap if and only if some byte is in both |
| PageTable.DirtyExact | src/simple_parallel/include/pagemap.h:21-33 | an entry counts as dirty by its bit 55 alone |
| PageTable.TouchedExact | src/simple_parallel/include/pagemap.h:21-47 | an entry counts as touched by bit 63 or bit 62, that is when the page is present or swapped out |
| PageScan.PageWords | src/simple_parallel/leader.cc:191-196 | a page has no byte set if and only if all its words are zero |
| PageScan.IsZeroedWords | src/simple_parallel/leader.cc:198-220 | the fast test and the vector loop answer exactly whether all words are zero, for every lane count that divides a page |
| PageScan.MallocPages | src/simple_parallel/leader.cc:133-146 | exactly the pages with a byte of a visited block are collected |
| PageScan.RunsExact | src/simple_parallel/leader.cc:111-113 | the maximal runs of a set of pages hold exactly its pages |
| PageScan.RunsMaximal | src/simple_parallel/leader.cc:111-113 | the runs ascend, none is empty, and between two of them a page is missing |
| PageScan.Prefilter | src/simple_parallel/leader.cc:242-248 | on the pages of a run, comparing with the overlapping reduce ranges alone skips what comparing with all would |
| PageScan.GetZeroAndDirtyPages | src/simple_parallel/leader.cc:224-291 | zero and dirty pages are exactly the live, dirty, touched pages inside no reduce area, without and with a byte set |
| ReduceAreas.VerifyReducesNoOverlap | src/simple_parallel/leader.cc:525-562 | an error is raised if and only if some byte is in two areas, and it names the first such pair |
| ReduceAreas.SupportedIsExact | src/simple_parallel/leader.cc:453-507 | every supported reduction of integers or booleans is a commutative monoid whose values fit an element, and the identity byte reads as its unit |
| ReduceAreas.WhatIsReduced | src/simple_parallel/leader.cc:448-451 | MPI_SUM adds modulo the number of values of the type; MPI_LAND is 1 if and only if no element is 0; MPI_LOR if and only if some element is not |
| ReduceAreas.Widths | src/simple_parallel/leader.cc:455-460 | the integer types hold 2^8, 2^16, 2^32 and 2^64 values |
| Elements.BytesExact | src/simple_parallel/leader.cc:520-523 | the bytes of an area are exactly those of its elements |
| ReduceAreas.EntersAtUnit | src/simple_parallel/leader.cc:453-507 | on entry every element of every such reduce area reads as its operator's unit on a worker, and the leader's memory is as it was |
| Elements.UpdateAllElem | src/simple_parallel/leader.cc:656-662 | updating disjoint areas one after the other replaces every element of each once, from its value at first |
| Replica.SkippedIsReduced | src/simple_parallel/leader.cc:265-275 | a page that is not sent because of the reduce areas holds bytes of reduce areas only |
| Replica.SwappedIsSent | src/simple_parallel/leader.cc:257-263 | a page that is swapped out is sent like one that is present |
| Replica.PageTableExactly | src/simple_parallel/include/pagemap.h:29-47 | writing brings a page in and makes it dirty, swapping moves it, mapping makes it dirty and empty, and only entering clears the dirty bits |
| Replica.WrittenExactly | src/simple_parallel/leader.cc:133-146 | a byte counts as written from its first write, by the program or a reduction, until its block is allocated anew or freed |
| Replica.AfterEnter | src/simple_parallel/leader.cc:415-436 | entering from any state of the invariant makes all written live bytes and the stack agree, and the reduce areas identities |
| Replica.UpdatedExactlyWhen | src/simple_parallel/leader.cc:250-282 | entering brings a written byte up to date if and only if its page is dirty on the leader or the copies agree already |
| Replica.StraySurvives | src/simple_parallel/leader.cc:257-259 | the run in which a worker's stray change lies on a clean page: the copies differ, and another entry would leave them so |
| Replica.ExitOk | src/simple_parallel/leader.cc:656-662 | leaving keeps the invariant for any reduced values, because it dirties every page with a reduce byte |
| Replica.RunOk | src/simple_parallel/leader.cc:415-436 | the invariant holds over any run of mappings, allocations, writes and regions |
| Replica.FreshReadsZero | src/simple_parallel/leader.cc:224-291 | memory that has been mapped and that nobody has written since reads as zero on both sides when a region is entered, outside the reduce areas |
| Replica.FreshExactly | src/simple_parallel/leader.cc:250-263 | a byte is fresh from its mapping until it is unmapped or written |
| Replica.Coherent | src/simple_parallel/leader.cc:573-634 | after any run from the start, entering a region leaves the worker with the leader's bytes outside the reduce areas and identities inside |
| Wire.Worker.RecvAndPerformMemOps | src/simple_parallel/worker.cc:76-87 | the worker's calls match the leader's, and its memory and its mapping with all protections are the log's replay |
| Wire.Worker.RecvDirtyPage | src/simple_parallel/worker.cc:94-104 | the worker's calls match the leader's, with sizes from received data, and exactly the sent areas are overwritten |
| Wire.Worker.RecvZeroPage | src/simple_parallel/worker.cc:106-126 | the worker's calls match the leader's, and exactly the sent ranges are cleared |
| Wire.Worker.EnterParallel | src/simple_parallel/worker.cc:133-145 | the worker posts all of the leader's broadcasts and no other, in their order and sizes |
| Wire.DecodesToReceived | src/simple_parallel/leader.cc:320-390 | runs, areas and ranges decode to exactly the bytes of the sent pages |
| Wire.EnterRegion | src/simple_parallel/leader.cc:415-436 | from the leader's scan to the worker's identities, the messages realise the entry step of the replica |
| MappingLog.Heap.FindPlace | src/simple_parallel/leader.cc:740-766 | for all answers of the kernel, the loop ends at the first step place that it accepts, or with none in the heap accepted |
| MappingLog.Heap.ProxyMmap | src/simple_parallel/leader.cc:722-792 | the area is at the first step place that the kernel accepts, in the heap, apart from all others, mapped with its protection and logged; nothing else changes |
| MappingLog.Heap.ProxyMunmap | src/simple_parallel/leader.cc:817-833 | the area is unmapped, and logged if and only if it has a byte in common with the heap |
| MappingLog.Heap.Sync | src/simple_parallel/leader.cc:397-405 | after sending and replaying the log the worker's heap mirrors the leader's |
| Headline.EndToEnd | src/simple_parallel/leader.cc:656-662 | after every run of the schedule, combining what the ranks have folded gives the original value combined with the fold over all items in order |
| Region.RunTasks | include/simple_parallel/c/c_dynamic_schedule_binding.h:117-136 | a thread's loops over its tasks and their indices compute the fold over all of them, in order |
| Region.CrewFold | include/simple_parallel/c/c_dynamic_schedule_binding.h:117-136 | whatever turns the threads of a rank take, their private copies combine to the fold over the rank's pieces |
| Region.RankMemoryAt | src/simple_parallel/leader.cc:630-634 | merging the threads' copies into a rank's memory leaves every element at its start combined with them, for all areas at once |
| Region.MergingRuns | include/simple_parallel/c/c_dynamic_schedule_binding.h:117-136 | a rank whose threads merge their copies one after the other has run its part of the loop |
| Region.ReduceArea | src/simple_parallel/leader.cc:448-451 | the chunked reduction of one area in the leader's memory replaces exactly its elements by the reduction over all ranks |
| Region.DoExitParallel | src/simple_parallel/leader.cc:656-662 | the loop over the areas leaves the leader's memory as the specified sequence of updates |
| Region.ExitReduceAt | src/simple_parallel/leader.cc:656-662 | although the areas are reduced one after the other in one memory, every element is reduced once, from what the loop left |
| Region.RegionReduces | src/simple_parallel/leader.cc:573-662 | from the sync to the exit: every element of every area of integers or booleans is its value at the entry combined with the sequential fold of the loop |
| Region.RegionComputes | src/simple_parallel/leader.cc:573-662 | in plain terms: a sum is its value at the entry plus all contributions of the loop modulo the number of values of its type, and likewise for conjunctions and disjunctions |
| Region.CombinedIs | src/simple_parallel/leader.cc:448-451 | what combining an element with contributions means for each operator |
| Region.RegionCanRun | src/simple_parallel/leader.cc:573-662 | for any number of clients and threads, any disjoint areas, any loop and any memories there is a region that meets all that the results about regions require |
| Region.HoldsExactlyWhen | src/simple_parallel/leader.cc:453-507 | the elements hold values of their operators if and only if every boolean is stored as 0 or 1 |
| Region.LoopCanRun | include/simple_parallel/c/c_dynamic_schedule_binding.h:97-144 | whatever the ranks were dealt, and however many threads each has, there are turns and memories with which the loop is run |
| Region.ExitWritesInside | src/simple_parallel/leader.cc:656-662 | the chunked reductions of all areas write no byte outside them |
| Region.LeftIsReduced | src/simple_parallel/leader.cc:656-662 | after the exit the leader's memory is, byte for byte, what the reductions have made of it |
| Region.GuidedLoop | include/simple_parallel/c/c_dynamic_schedule_binding.h:97-144 | with threads on every rank, a guided parallel loop leaves in the leader's memory what the sequential loop would, for all bounds that it visits exactly |
| Region.FortranLoop | src/fortran_binding/fortran_dynamic_schedule_binding.f90:132-152 | so does the inclusive loop of Fortran, for all bounds that it visits exactly |
| Region.TriangularLoop | include/simple_parallel/c/c_dynamic_schedule_binding.h:146-206 | so does the collapsed triangular loop |

## Left out

- Start-up: option parsing, checks of address randomisation, page size and CPU binding, and the replacement of `main`.
- Context switching: the jump into the region is "the worker goes on from the leader's state", and the stack is always copied whole.
- Reading `/proc/self/pagemap` and clearing soft-dirty bits through the kernel: a page table is a function, and entering a region clears the dirty pages.
- The insides of MPI, boost::icl, mimalloc and circular_buffer, the assertions on the completion of sends and on visible requests in the first round, and the cancelling of a client's last requests.
- The occupancy of the request rings: they depend on when sends complete. `Credit` and `CreditIsTight` say how many values are under way.
- `madvise` and its replay, which is advice only.
- The sync of Fortran's global variables. It comes after the identities are set, so the reduction results need reduce areas that are apart from those globals.
- Floating-point reductions, which are not associative; their areas are set to zero bytes like those of integers.
- The error paths of nested regions and failed collectives, timing, debug output and the wrappers of C and Fortran handles.
- Thread scheduling inside OpenMP; `Threads` has the two critical sections and the counter, and any turns.
- The all_reduce that adds up the processes of all ranks for a generator: `procs` is its result.
- Wire.Worker.RecvAndPerformMemOps: a log of 2 GiB or more is not modelled, because the worker asserts that there is none; of a mapping's flags only the protection is.
- Replica.Coherent: speaks of bytes that the leader has written since their allocation, and `FreshReadsZero` of those that nobody has written since they were mapped; what an earlier owner has left in a block is not promised to agree.
- MappingLog.Heap.ProxyMmap: the mapping flags other than the protection, and the mutex, are not modelled.
- Collapse.RunChunk: the walk of one thread; the order of chunks among threads is in `Threads`.
- Region.RegionReduces: the loop body is its contribution to every element; what else it writes is left open, and floating-point areas may hold anything.
