# libae: the memory pool, the thread pool, the option parser and the result messages

A Dafny model of the parts of libae that keep state or follow a protocol, with
proofs of what they promise. `dafny verify dfyconfig.toml` checks everything.

**Memory pool and pointer arrays** (`Align`, `Memory`, `Pool`, `PtrArray`,
`PoolWorld`, `PoolRuns`, `PoolSpace`). Memory is one array of bytes with absolute
addresses. `Pool.Pool` and `PtrArray.PtrArray` are objects with the fields of
`ae_pool_t` and `ae_ptrarray_t`; their methods follow the C functions and are proved
against functions over those fields and the bytes. Pointers are words of 8 or 4
bytes in that memory (`_LP64` or not). mmap and mremap are answers passed to the
methods: refused, or an address; an answer that grows a mapping in place must have
the room. `PoolWorld` puts any number of raw blocks and arrays in one pool;
`PoolRuns` and `PoolSpace` are about every interleaving of operations on them.

**Thread pool** (`ThreadPool`). A transition system: a client's enqueue, the call of
join, a STOP sent, a thread reaped, a message received, a job finished. The queue is
that of mq_send and mq_receive in IEEE Std 1003.1-2008: highest priority first, first
in first out within a priority, blocking when full or empty. All threads have been
created, queue calls do not fail, jobs return and do not enqueue. `ThreadPool.ThreadPool`
is the object; each of its methods is one stretch of the C code between two calls that
may block and is proved to be a step of the system.

**Option parser** (`Decimal`, `OptTable`, `OptSpec`, `OptParser`, `OptRuns`,
`OptRoundTrip`, `OptHelp`). `OptParser.OptParser` has the loops of `ae_opt_process`
and the `ae_opt_parse_*` family as methods that change the cursor and the variables.
`OptSpec.Parse` says by recursion over the argument list which options are matched
with which parameter; `OptTable.ApplyAll` says what that does to the variables. A
variable behind an `out` pointer is a key of a map. Leaving through HELP or VERSION
is a third verdict, `Exit`. Callbacks see their argument and give a verdict.
Duplicate names, tables without options and the extra step of the cursor after `=`
are as in the code.

**Result messages** (`Str`, `Res`). The buffer of 4000 characters, the head and the
8-bit count as `Res.ResMsg`, four of them with a mask as `Res.Res`. The outcome of
formatting is any text, or a failure after some text.

Behaviour of the code a caller may not expect, some of it against the headers and some
not mentioned there. The code is followed, and each has its exact condition:

- `ae_ptrarray_grow` is called `ps_ptrarray_grow` in the code and refuses to grow to
  less than the capacity (`PtrArray.GrownIff`).
- `ae_pool_realloc` never grows in place and refuses the block that ends at the bump
  pointer (`PtrArray.GrowthFailsIff`, `PtrArray.NewestFullArrayCannotGrow`); for a new
  length below the old one it writes past the new block (`Pool.ReallocStaysInsideIff`).
- Sums and products of addresses and sizes are not checked. A request is as meant exactly
  when its sum with the bump pointer is an address, and it fits, or its sum with the length
  of the mapping is a size, or the kernel refuses (`Pool.CodedPlaceIff`). Otherwise the bump
  pointer moves back, or the mapping gets no longer and the bump pointer passes its end
  (`Pool.Miscalculated`). `ae_pool_strdup` comes to both with lengths below -1
  (`Pool.StrdupCopiesIff`, `Pool.NegativeLengthIff`, `Pool.ShrunkByNegativeLength`), and
  arrays have the product of their capacity besides (`PtrArray.RoomForSlotsIff`,
  `PtrArray.SlotsWithoutBytes`).
- A refused `ae_ptrarray_dup` leaves the target with the length and capacity of the
  source and its own slots. The contents of the target are as before exactly when length
  and capacity of both are equal (`PoolRuns.RefusedDuplicateHarmlessIff`,
  `PoolRuns.RefusedDuplicateEmpties`). The objects stay in order exactly when the slots it
  now claims end below the bump pointer and meet no other object, so always when the
  capacity of the source is not above its own (`PoolRuns.RefusedDuplicate`,
  `PoolRuns.RefusedDuplicateOverlaps`, `PtrArray.RefusedDuplicateElsewhere`).
- A required parameter may be missing: the default is stored then, -1, or no string,
  and this is an error only where the table entry makes it one
  (`OptRuns.MissingRequired`, `OptRuns.MissingRequiredAccepted`).
- An option without a parameter is handed a positional argument that follows; a counter
  adds what it says (`OptRuns.NoParamSeesPositional`, `OptRoundTrip.BeforePositionalIff`).
- `--name=value` for an option with a parameter also skips the next argument
  (`OptRuns.InlineSwallowsNext`, `OptRoundTrip.JoinedIff`); at the end of the list the
  next call is then an error (`OptRoundTrip.JoinedAtEndIff`, `OptRuns.PastTheEnd`).
- Join does not wait for queued jobs: jobs accepted before the call are certain to be
  run exactly when the queue is empty at the call (`ThreadPool.AllJobsRunIff`,
  `ThreadPool.StopOvertakesJob`).
- Clients that go on enqueueing can keep join waiting for any number of steps exactly
  until its last STOP is sent (`ThreadPool.BoundedIff`).
- `ae_res_clear` removes neither the text nor the mask bits (`Res.ClearKeepsText`,
  `Res.ClearUndoesIff`, `Res.ClearKeepsError`).
- A message buffer with messages in it and exactly one free character has no room for
  another: the newline goes there, the terminator goes behind the buffer, where the count of
  the next kind is, and a second NUL goes over the newline. The message is lost, its kind is
  full, and the next message of the other kind stands there without a newline. Only when the
  8-bit count has wrapped to 0 is there no newline, and the message is taken and cut to
  nothing (`Res.OneMoreIff`, `Res.ExactFitIsLast`, `Res.OthersKeptIff`, `Res.FullAfterNoRoom`,
  `Res.FullForGood`, `Res.SeparatorLost`).
- Help columns can be off where a real-valued option or a counter takes a parameter
  (`OptHelp.LinedUpIff`, `OptHelp.CounterHintBreaksColumn`).

## Model

| member | source | states |
|---|---|---|
| Align.AlignUpIsLeast | libae/pool.c:10-11 | rounding up gives the least multiple that is not below the address |
| Align.AlignPtrIsAlignUp | libae/pool.c:10-11 | the mask expression of ALIGN_PTR, bit by bit, is that rounding for every power of two |
| Align.CeilDivIsAlignUp | libae/pool.c:28-30 | the page-count formula is that rounding for every page size |
| Pool.AligningStaysInside | libae/pool.c:106-117 | because pages are multiples of the alignment, aligning the bump pointer never passes the end of the pool |
| Pool.RemapKeepsSound | libae/pool.c:54-93 | growing by a size keeps the pool whole pages and moves its end by at least that size |
| Pool.AllocStaysInside | libae/pool.c:95-124 | every block granted is aligned, starts at or above the old bump pointer and ends at the new one inside the pool, although the remap asks for the unaligned size only |
| Pool.AllocFailsIff | libae/pool.c:106-117 | a request fails exactly when it does not fit and the kernel will not grow the mapping in place |
| Pool.AllocAccounting | libae/pool.c:95-124 | the aligned bump pointer moves by exactly the rounded request; the mapping grows by at most its page-rounded size |
| Pool.RequestIsFresh | libae/pool.c:95-171 | a granted request changes bytes of its own fresh block only and that block begins with the bytes written; a refused one changes nothing |
| Pool.ReallocStaysInsideIff | libae/pool.c:136-155 | a granted reallocation writes its new block only, whatever memory holds, if and only if the new length is not below the old one |
| Pool.CodedPlaceIff | libae/pool.c:54-123 | in the arithmetic of the machine, with its sums cut to the width of a pointer, a request gives pool and block of the model if and only if the aligned bump pointer and the size add up to an address, and it fits, or the length of the mapping and the size add up to a size, or the kernel refuses |
| Pool.Miscalculated | libae/pool.c:54-123 | otherwise it is granted: the bump pointer moves back, or, where the first sum is an address, the mapping gets no longer and the bump pointer passes its end |
| Pool.GrantSoundIff | libae/pool.c:54-123 | a request granted in that arithmetic has its block in a sound pool if and only if neither sum it depends on wraps around |
| Pool.StrdupCopiesIff | libae/pool.c:159-171 | for every ssize_t length that is granted in that arithmetic, the block lies in a sound pool and holds the same C string if and only if the length is negative or at least that of the source and neither sum wraps around; a length understated leaves no terminator |
| Pool.NegativeLengthIff | libae/pool.c:54-165 | a length -n below -1 is served as the huge request it stands for if and only if the aligned bump pointer is below n - 1, and the request fits, or the mapping is shorter than n - 1, or the kernel refuses; from n - 1 on it is granted and moves the bump pointer back |
| Pool.ShrunkByNegativeLength | libae/pool.c:54-165 | a pool of two pages that a string with the length of minus two pages leaves with one page and the bump pointer behind its end |
| Pool.Pool.Init | libae/pool.c:26-44 | succeeds with a sound empty pool at the mapped address, or leaves next and end alone |
| Pool.Pool.Reset | libae/pool.c:47-51 | only the bump pointer moves, back to the start |
| Pool.Pool.Remap | libae/pool.c:54-93 | grows the mapping when the kernel answers with the old address, otherwise changes nothing |
| Pool.Pool.Alloc | libae/pool.c:95-124 | the fields after the call, the verdict and the pointer are those of the request; memory is untouched |
| Pool.Pool.Calloc | libae/pool.c:127-133 | as a request whose block, every byte of it, is then zero |
| Pool.Pool.Realloc | libae/pool.c:136-155 | refuses the block that ends at the bump pointer, otherwise copies all of the source to a fresh block, whichever of the two is longer |
| Pool.Pool.Strdup | libae/pool.c:159-171 | as a request for one byte more than the length given or, for -1, than that of the source; byte for byte the source as far as the block goes, then zeros; lengths below -1 as long as no sum wraps around |
| PtrArray.GrowthFacts | libae/ptrarray.c:5-16 | a successful growth moves the same items to a fresh aligned block and touches nothing else; a refused one changes nothing |
| PtrArray.GrowthFailsIff | libae/ptrarray.c:5-16 | growth fails exactly when the slots in use end at the bump pointer or the pool refuses |
| PtrArray.NewestFullArrayCannotGrow | libae/ptrarray.c:54-63 | when the array is the newest block of its pool an append succeeds if and only if there is a free slot |
| PtrArray.GrownFacts | libae/ptrarray.c:19-39 | growing keeps the old items in front and makes length and capacity equal, in place or in a fresh block, or changes nothing |
| PtrArray.GrownIff | libae/ptrarray.c:19-39 | it succeeds if and only if the new length is the capacity, or is above it while the slots in use do not end at the bump pointer and the request fits or the kernel grows the mapping |
| PtrArray.AppendFacts | libae/ptrarray.c:54-63 | an append yields the old items and then the new one, in place or in a fresh block, or leaves array, pool and memory as they were |
| PtrArray.RemoveFacts | libae/ptrarray.c:66-79 | removal leaves every item where it was but for the last one, which takes the place of the one removed, and changes no byte outside the array |
| PtrArray.ShrinkFacts | libae/ptrarray.c:82-89 | shrinking keeps a prefix of the items |
| PtrArray.DuplicateFacts | libae/ptrarray.c:92-103 | a copy has the same items in a fresh block of its own |
| PtrArray.RefusedDuplicateElsewhere | libae/ptrarray.c:92-103 | a refused copy into another pool leaves an array that had slots outside of that pool; one without slots is in it only if it stands at its start |
| PtrArray.RoomForSlotsIff | libae/ptrarray.c:8-103 | the block the machine grants for a number of slots has room for them in a sound pool if and only if neither the product nor a sum the request depends on wraps around |
| PtrArray.SlotsWithoutBytes | libae/ptrarray.c:42-51 | a positive capacity for which no byte is asked, so that it is always granted |
| PtrArray.PtrArray.Init | libae/ptrarray.c:42-51 | an empty array of the given capacity, or the fields as they were |
| PtrArray.PtrArray.GrowCapacity | libae/ptrarray.c:5-16 | array, pool and memory after the call are those of the growth |
| PtrArray.PtrArray.Grow | libae/ptrarray.c:19-39 | likewise for the change of length |
| PtrArray.PtrArray.Append | libae/ptrarray.c:54-63 | likewise for the append |
| PtrArray.PtrArray.Remove | libae/ptrarray.c:66-79 | likewise for the removal |
| PtrArray.PtrArray.Shrink | libae/ptrarray.c:82-89 | likewise for the truncation |
| PtrArray.PtrArray.Dup | libae/ptrarray.c:92-103 | likewise for the copy, into the same or another pool |
| PoolRuns.StepSim | libae/ptrarray.c:5-103 | each of fifteen operations keeps all objects aligned, apart and below the bump pointer, has on contents the effect a plain sequence would show, and changes no byte of any other object or of memory handed out before and no longer in use |
| PoolRuns.RefusedDuplicate | libae/ptrarray.c:92-103 | after a refused copy onto an array in use the objects are in order if and only if the slots it now claims end below the bump pointer and meet no other object; they are whenever the capacity of the source is not above its own |
| PoolRuns.RefusedDuplicateHarmlessIff | libae/ptrarray.c:92-103 | a refused copy onto an array in use leaves all contents as they were if and only if source and target have the same length and the same capacity |
| PoolRuns.RefusedDuplicateEmpties | libae/ptrarray.c:92-103 | for every page size from 96 on, an array of two items that a refused copy leaves empty |
| PoolRuns.RefusedDuplicateOverlaps | libae/ptrarray.c:92-103 | for every page size from 96 on, a sound pool in which the slots claimed after a refused copy end below the bump pointer and lie in another block |
| PoolRuns.FreshPool | libae/pool.c:41-51 | a pool just initialised or reset is where runs start: the invariant holds and there is no object |
| PoolRuns.RunSim | libae/pool.c:95-171 | after any interleaving on any number of arrays and blocks every object has the contents it would have alone |
| PoolRuns.BystanderKept | libae/pool.c:95-171 | an object no operation of a run works on keeps its place and every byte, spare capacity included |
| PoolRuns.RunFrame | libae/pool.c:95-171 | over a run without reset no byte below the bump pointer it started with changes but in the objects worked on, so blocks left behind by growing arrays keep their bytes |
| PoolRuns.BagConserved | libae/ptrarray.c:54-103 | over any run, what an object holds at the end and what was taken out is what it held at the start and what was put in, as multisets; only a copy onto it can make an array a mere block |
| PoolRuns.ArrayIsBag | libae/ptrarray.c:54-103 | the same of the words in memory, with the length within the capacity |
| PoolSpace.StepSpace | libae/pool.c:95-124 | each operation uses exactly the rounded size it was granted, and nothing when it was granted none |
| PoolSpace.RunSpace | libae/pool.c:10-66 | over any run the space in use is the sum of the rounded sizes granted since the last reset, and the mapping grows by no more than the page-rounded sizes granted |
| ThreadPool.NextInv | libae/threadpool.c:115-192 | every step keeps: STOPs before jobs, STOPs sent are queued or consumed by an exit, jobs begun and then queued are the jobs accepted |
| ThreadPool.NothingLostOrReordered | libae/threadpool.c:33-63 | in every run jobs are begun in the order of acceptance, none lost or doubled, and the queue is STOPs and then jobs |
| ThreadPool.TenJobsFit | libae/threadpool.c:90-96 | while no worker takes any, jobs are accepted one after the other if and only if they are at most ten |
| ThreadPool.JobsAtOnce | libae/threadpool.c:115-140 | as many jobs as there are workers can run at once, each on any worker one likes |
| ThreadPool.FinishEach | libae/threadpool.c:132-140 | jobs that run at once can end in any order |
| ThreadPool.Progress | libae/threadpool.c:115-192 | between the call of join and its return some step of join or of a worker can always be taken |
| ThreadPool.MeasureDecreases | libae/threadpool.c:115-192 | every step but a client's enqueue decreases a weighted count of what is left to do |
| ThreadPool.JoinTerminates | libae/threadpool.c:172-192 | without further enqueues at most 5n + 20 steps follow the call of join, and a run that cannot go on has returned |
| ThreadPool.JoinTerminatesRegardless | libae/threadpool.c:182-192 | once the last STOP is sent at most 5n + 10 steps follow even if clients go on enqueueing, and a run that can only go on with an enqueue has returned |
| ThreadPool.BoundedIff | libae/threadpool.c:172-192 | after the call of join the lengths of all further runs, enqueues included, have a bound if and only if the last STOP has been sent |
| ThreadPool.JoinCanReturn | libae/threadpool.c:172-192 | from every state after the call of join its return can be reached |
| ThreadPool.NoStartAfterLastStop | libae/threadpool.c:121-141 | after the last STOP has been sent no further job is begun |
| ThreadPool.AfterJoin | libae/threadpool.c:172-192 | when join has returned all workers have exited, no STOP is queued, all jobs begun are finished and the others are the last ones accepted |
| ThreadPool.LastStopDecides | libae/threadpool.c:172-192 | in a run in which join returned, all jobs accepted were run if and only if none was queued when the last STOP was sent and none came later |
| ThreadPool.AllJobsRunIff | libae/threadpool.c:172-192 | in every run to the return of join all jobs accepted before the call are run if and only if the queue is empty at the call |
| ThreadPool.LosingRun | libae/threadpool.c:172-192 | from every state before the call in which a job is queued, a run without enqueues to the return of join in which a job is never begun |
| ThreadPool.StopOvertakesJob | libae/threadpool.c:7-11 | a run in which a job accepted before join is never run |
| ThreadPool.ThreadPool.Start | libae/threadpool.c:146-158 | the loop over the thread ids leaves that many waiting threads |
| ThreadPool.InsertIff | libae/threadpool.c:33-43 | what the queue does with a message is to put it, and it is the only place of that kind, behind messages of the same or a higher priority and before one of a lower priority or at the end |
| ThreadPool.ThreadPool.Send | libae/threadpool.c:33-43 | the other messages keep their order, and the new one stands behind those of the same or a higher priority up to the first of a lower one |
| ThreadPool.ThreadPool.Enque | libae/threadpool.c:161-169 | a step of the system that queues a job; the invariant is kept |
| ThreadPool.ThreadPool.JoinCalled | libae/threadpool.c:172-177 | a step to the first STOP, or straight back when there are no threads |
| ThreadPool.ThreadPool.JoinSendsStop | libae/threadpool.c:177-182 | a step of the first loop of join; the invariant is kept |
| ThreadPool.ThreadPool.JoinReaps | libae/threadpool.c:182-191 | a step of the second loop of join; the invariant is kept |
| ThreadPool.ThreadPool.WorkerReceives | libae/threadpool.c:121-139 | a step in which a worker takes the first message and begins its job or exits; the invariant is kept |
| ThreadPool.ThreadPool.WorkerFinishes | libae/threadpool.c:132-140 | a step in which a worker goes back to waiting; the invariant is kept |
| Decimal.ScanPrinted | libae/opt.c:107-114 | the decimal notation of every integer is read back as that integer |
| Decimal.PrintedIsNoOption | libae/opt.c:57-61 | no integer in decimal notation is taken for an option, so negative numbers can stand apart |
| Decimal.ScanIff | libae/opt.c:109-114 | a text is read as a number if and only if it is white space, a sign or none, zeros, the decimal notation of its magnitude and something that does not go on with a digit |
| Decimal.PrintedNotation | libae/opt.c:380 | the decimal notation, digit by digit |
| Decimal.LowBits | libae/opt.c:220-231 | what is stored is the 32-bit int that differs from the number by a multiple of two to the 32 |
| OptParser.OptParser.Init | libae/opt.c:21-45 | the name lengths are filled in, nothing else in the table and not the cursor |
| OptSpec.DashedIff | libae/opt.c:55-63 | an argument counts as an option if and only if two dashes are its prefix |
| OptParser.OptParser.ArgGet | libae/opt.c:48-64 | the argument at the cursor unless there is none or it begins with two dashes |
| OptParser.OptParser.ParseFlag | libae/opt.c:67-81 | the variable and verdict of a flag |
| OptParser.OptParser.ParseInt | libae/opt.c:84-132 | success if and only if there is a variable, a number or its default, and that is within the limits; what is stored, also on failure |
| OptParser.OptParser.ParseDouble | libae/opt.c:135-184 | the same with real numbers and an abstract reader |
| OptParser.OptParser.ParseBit | libae/opt.c:187-203 | success if and only if there is a variable; each of its bits is then set if and only if it was or the mask has it |
| OptParser.OptParser.ParseCounter | libae/opt.c:206-233 | success if and only if there is a variable; it gains one or the number given, and nothing from a parameter that is no number |
| OptParser.OptParser.ParseString | libae/opt.c:236-243 | the variable of a string option |
| OptParser.OptParser.OptionProcess | libae/opt.c:246-294 | cursor, variables and verdict after one matched option, success in terms of variable, number, limits and callback |
| OptParser.OptParser.TryOption | libae/opt.c:591-608 | comparing by length and characters is comparing with the name before the equals sign |
| OptParser.OptParser.ArgumentIsValid | libae/opt.c:519-533 | true if and only if the argument begins with two dashes |
| OptParser.OptParser.ProcessArgument | libae/opt.c:575-609 | the inner loop matches the entries of that name in table order |
| OptParser.OptParser.Process | libae/opt.c:554-630 | for every table and argument list the nested loops end with the variables, cursor and verdict of the recursive specification |
| OptRuns.CursorBounds | libae/opt.c:554-630 | with unique names the cursor never moves back and ends at most one past the end of the list |
| OptRuns.StopReason | libae/opt.c:554-630 | processing that succeeds stands at a positional argument, behind two dashes or at the end; processing that fails ends in an option not accepted or an unknown argument not wanted; every other option was accepted |
| OptRuns.SecondCallIff | libae/opt.c:554-589 | after a success a second call changes neither cursor nor variables and succeeds if and only if the first one stopped at the end or at a positional argument; it is an error past the end, and otherwise the first one stopped behind two dashes and the cursor moves on |
| OptRuns.PastTheEnd | libae/opt.c:251-256 | with unique names the cursor passes the end only if the last argument gives a value with an equals sign to an option that takes a parameter |
| OptRuns.OnlyRestMatters | libae/opt.c:554-630 | the result depends on the arguments from the cursor on only |
| OptRuns.EndsAt | libae/opt.c:566-589 | with an option in the table an argument without two dashes in front ends processing where it stands; two dashes alone end it behind them |
| OptRuns.UnknownOption | libae/opt.c:536-628 | processing goes on behind an option no entry is named by, and behind any argument for a table without options, if and only if there is a global callback and it agrees |
| OptRuns.SameNameTwice | libae/opt.c:575-609 | two entries of one name are both processed, in table order |
| OptRuns.InlineSwallowsNext | libae/opt.c:251-256 | after an equals sign with an option that takes a parameter, the next argument has no influence at all |
| OptRuns.MissingRequired | libae/opt.c:84-256 | a required parameter that is missing is accepted if and only if the entry has a variable where its kind asks for one, a default within its limits, and a callback that agrees; what is stored for each kind |
| OptRuns.MissingRequiredAccepted | libae/opt.c:84-132 | an integer option without limits whose required parameter is missing is accepted and stores -1 |
| OptRuns.NoParamSeesPositional | libae/opt.c:246-256 | an option that takes no parameter is handed a positional argument behind it and processing ends in front of that argument; a counter adds what it says, flags and bits do not change by it |
| OptRuns.OptionGiven | libae/opt.c:67-294 | for every kind: an option with a parameter goes on if and only if it has a variable where its kind needs one, the parameter can be read and is within the limits, and the callback agrees; what the variable holds in any case |
| OptRuns.IntGivenIff | libae/opt.c:84-132 | an integer option goes on if and only if the parameter is a number within the limits and the callback agrees, and the number is in the variable |
| OptRuns.AcceptedIff | libae/opt.c:67-294 | what the model accepts is what a caller can check of the entry and the parameter, kind by kind |
| OptRuns.PrintedIntTaken | libae/opt.c:84-132 | every int within the limits is taken in decimal notation, a negative one standing apart as well |
| OptRuns.LastWins | libae/opt.c:84-132 | the last accepted option on a variable decides its value |
| OptRuns.ParsedIntWithinLimits | libae/opt.c:84-132 | after success an integer variable is untouched or within the limits of its option, defaults included |
| OptRuns.BitsAccumulate | libae/opt.c:187-203 | a bit variable ends as its initial bits or all masks matched |
| OptRuns.CountsAccumulate | libae/opt.c:206-233 | a counter ends as its initial value plus all contributions, as a 32-bit int |
| OptRuns.ParsedBits | libae/opt.c:187-203 | for every table, argument list and verdict a variable only bit options write ends as its initial bits or all masks matched |
| OptRuns.ParsedBitIff | libae/opt.c:187-203 | after any parse a bit is set if and only if it was before or the mask of an option matched has it |
| OptTable.OrBits | libae/opt.c:201 | a bit is set afterwards if and only if it was or is set now |
| OptRuns.ParsedCounter | libae/opt.c:206-233 | likewise a variable only counters write ends as its initial value plus all contributions |
| OptRuns.OrderIrrelevant | libae/opt.c:187-233 | the same events in any other order set the same bits and count the same |
| OptRoundTrip.ReadAll | libae/opt.c:554-630 | settings in front of anything that begins with dashes are read first and in order, and reading goes on behind them |
| OptRoundTrip.RoundTrip | libae/opt.c:554-630 | any list of settings in their notations, then two dashes and any tail, is read as those settings in order with the cursor at the tail |
| OptRoundTrip.NumbersRoundTrip | libae/opt.c:554-630 | any list of ints within their limits, negative ones among them, each apart from its option, is read back |
| OptRoundTrip.BeforePositionalIff | libae/opt.c:584-607 | settings in front of a positional argument are read as written, with the cursor at that argument, if and only if the last one does not stand bare |
| OptRoundTrip.JoinedIff | libae/opt.c:604-607 | behind a setting with an equals sign, anywhere in the list, reading goes on at the next argument if and only if its option takes no parameter, else one further |
| OptRoundTrip.JoinedAtEndIff | libae/opt.c:558-607 | as the last argument, behind any settings, it leaves the cursor at the end if and only if its option takes no parameter; otherwise the cursor passes the end and the next call fails |
| OptRoundTrip.SettingsRecovered | libae/opt.c:67-132 | flags, strings and integers hold what their last setting says, integers through their decimal notation |
| OptRoundTrip.BitsRecovered | libae/opt.c:187-203 | bit variables hold the bits of all settings |
| OptRoundTrip.CounterRecovered | libae/opt.c:206-233 | counters hold the sum of all settings |
| OptHelp.GetLongest | libae/opt.c:338-363 | the result is the greatest counted width among the options printed up to the next heading, or 0 |
| OptHelp.HelpPrint | libae/opt.c:493-516 | the usage, then in table order for each entry at its place: nothing without help text, for a heading its centred name and text, for an option one line of name, hint and blanks, its help text and, readable as numbers, minimum, maximum and default |
| OptHelp.LinedUpIff | libae/opt.c:297-363 | the separators of a group stand in one column if and only if all printed fields are within the counted width or all are equally wide |
| OptHelp.CounterHintBreaksColumn | libae/opt.c:323-335 | a flag and a counter with a parameter, each named by one letter, do not line up |
| OptHelp.PlainGroupsLineUp | libae/opt.c:323-472 | groups whose real-valued options and counters take no parameter line up, at the counted width |
| OptHelp.PlainRowsLineUp | libae/opt.c:323-516 | in the lines printed the options of such a group are all as wide in front of the separator as the widest counts |
| OptHelp.CountedIs | libae/opt.c:315-335 | integers and strings count with their hint, at most 511 characters, everything else with its name |
| Str.PrintV | libae/str.c:6-20 | the buffer holds the text and a terminator or, of a text that does not fit, all characters but one for the terminator; nothing outside is written; the length printed or 0 |
| Str.PrintedText | libae/str.c:6-20 | what is in front stays, and what can be read behind it is the text cut to the room, terminated |
| Str.PrintedWithin | libae/str.c:6-20 | likewise of the buffer as a value: text and terminator, or all characters but one for the terminator, and nothing outside |
| Res.ResMsg.Init | libae/res.c:12-16 | count and head are reset, the characters stay |
| Res.ResMsg.AddV | libae/res.c:22-38 | the buffer, head and count after one message |
| Res.ResMsg.AddVAtEnd | libae/res.c:22-38 | the buffer, head and count after a message that finds one free character, and the count behind the buffer |
| Res.AddedText | libae/res.c:22-38 | one message extends the text before the head by a separator and, if it fits, itself |
| Res.SeriesText | libae/res.c:22-38 | after every series of messages the text before the head is a fold in which a message that does not fit leaves its separator only, the buffer is terminated, and the string shown ends in the last message, cut if need be |
| Res.OneMoreIff | libae/res.c:24-36 | a series can take one more message if and only if its length is a multiple of 256 or two characters are free |
| Res.ExactFitIsLast | libae/res.c:24-36 | a first message that fills the buffer exactly leaves no room for a second |
| Res.AllKept | libae/res.c:22-38 | up to 256 messages that fit together are all kept, joined by newlines |
| Res.CutAtEnd | libae/res.c:22-38 | a last message that does not fit is shown until 3999 characters are full |
| Res.LongLast | libae/res.c:22-38 | behind up to 255 messages that fit a long one is kept up to the 3999th character, theirs and the newlines counted |
| Res.Res.Clear | libae/res.c:41-47 | all counts and heads are reset, whatever they were; mask and characters stay |
| Res.Res.Init | libae/res.c:50-54 | likewise, and the mask is zero |
| Res.Res.AddV | libae/res.c:57-61 | the mask bit is set and the message goes to its kind, or fills it and resets the count of the next one |
| Res.KindsApart | libae/res.c:57-61 | after any mixed series each kind holds what its own messages make of it |
| Res.MaskApart | libae/res.c:57-61 | a mask bit is set if and only if it was or a message of its kind came |
| Res.BitOfKind | libae/res.c:57-59 | errors have bit 1, warnings 2, information 4 |
| Res.OthersKeptIff | libae/res.c:22-38 | a message leaves the other kinds alone if and only if it finds room or the count behind its buffer is 0 |
| Res.FullAfterNoRoom | libae/res.c:22-38 | a message that finds one free character is not kept; the text before stays, terminated by the last character, and the head is at the end |
| Res.FullForGood | libae/res.c:22-61 | over any series a kind whose head is at the end keeps head and characters |
| Res.SeparatorLost | libae/res.c:22-38 | after that the next message of the kind behind is appended to its text without a newline and counts as the first |
| Res.ClearKeepsText | libae/res.c:41-47 | after any series on a fresh object and a clear each kind still reads as its series, so empty only if that was one empty message, and its mask bit is set if and only if a message of it came |
| Res.ClearUndoesIff | libae/res.c:41-54 | a clear brings back the object as initialised if and only if no message had been added |
| Res.ClearKeepsError | libae/res.c:41-47 | an error message that can still be read after the clear |

## Left out

- libae/mux.c and libae/server.c: epoll and socket plumbing around callbacks.
- libae/io.c, libae/event.c, libae/timer.c, libae/time.c: wrappers of system calls.
- libae/log.c, libae/misc.c, libae/ae.c: output under a mutex, name lookups and global setup.
- ae_pool_uninit and ae_threadpool_uninit: release of resources.
- Pool.Pool.Remap: an answer with another address is an error as in the code; that the old mapping would then be gone is not modelled, and zeroing of new pages neither.
- Pool.Pool.Alloc: the objects and the runs add and multiply addresses and sizes without wrapping around, which is what the machine does exactly under the conditions of `Pool.CodedPlaceIff` and `PtrArray.RoomForSlotsIff`; a grown mapping lies inside the address space.
- Pool.Pool.Init: likewise; a size whose rounding wraps around comes to a length of 0, which the kernel refuses.
- Pool.Pool.Realloc: requires a source that does not overlap the new block and memory under the copy, as memcpy does.
- PoolWorld.MayDo: in the runs a reallocation is to a length not below the old one, where it stays in its block.
- Pool.Pool.Strdup: a length below -1 is excluded where a sum wraps around, as the write would leave memory (see `Pool.NegativeLengthIff`); the source text is passed as a value, so it may lie anywhere outside the new block; in the runs of `PoolWorld` its length is -1 or more.
- Failing threads and queue calls: all threads are created and the calls of the queue succeed.
- ThreadPool.Next: the steps belong to different threads, so the loops of worker and join appear as positions between the steps, not as loops.
- OptParser.OptParser.TryOption and OptParser.OptParser.ProcessArgument: parts of the loop body of `ae_opt_process` that have a method of their own here.
- OptParser.OptParser.ParseInt: where section 7.19.6.2 of C99 leaves a number out of range undefined, the model keeps the low 32 bits of the number clamped to 64 bits; a counter that overflows wraps around.
- OptParser.OptParser.ParseDouble: the notation of real numbers is an abstract reader, and infinities and not-a-number are left out.
- Option callbacks: they do not touch the parser; names in the table are not null, and string options have a variable.
- ae_opt_version_print: one line of two texts.
- OptHelp.HelpPrint: hints fit their buffer of 256 characters, as the code assumes.
- Str.PrintV: a conversion that fails leaves the text before the failure terminated; texts are free of NUL where the string shown is concerned.
- Res.ResMsg.AddV: requires two free characters when there are messages already (or none at all); one free character is `Res.ResMsg.AddVAtEnd`, which does not take the message, as nothing of it is written.
- Res.ResMsg.AddVAtEnd: the messages lie one behind the other without padding, as they do with pointers of 4 or 8 bytes.
- Res.Res.AddV: for the last kind, information, the byte behind the buffer is not part of the object, so one free character is excluded there.
- Res.Res.SetBit, Res.Res.AddWithRoom and Res.Res.AddWithoutRoom: parts of `ae_res_addv` that have a method of their own here.
