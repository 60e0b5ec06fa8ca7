# A verified model of MPICH's hard core

This project models, in Dafny, the parts of MPICH whose correctness depends on state that many
steps share, and proves what those parts promise:

* **The Mandelbrot farms** of `examples/pmandel*.c`. A root cuts an image into 400 tiles, shuffles
  them and hands them to workers by tagged messages, by messages to spawned children, or by
  one-sided puts between fences. `MessageFarm` and `FenceFarm` are step relations over the root,
  the workers and what is in flight; every interleaving of enabled steps is a run. The main
  results are for every run: the parallel image is the sequential one, no run gets stuck even if
  no send is ever buffered, and every run has the same length.
* **The handle allocator** (`Handles`, `PoolSpec`, `HandlePool`): the bit layout of handles, the
  pool with its intrusive free list as mutable objects, and the value-level specification that it
  refines.
* **Reference-counted requests and communicators** (`Lifetime`, `LifetimeLedger`) with any number of threads, and the
  two forms of the **completion counter** (`Completion`).
* **The dynamic array** `UT_array` (`UtArray`): a mutable buffer that refines a sequence, with a
  ledger of the elements made and destroyed and of the elements moved by reallocation.
* **Watermark performance variables** (`Watermark`, `Pvar`), **schedules of nonblocking
  collectives** (`Schedule`, `ScheduleProofs`, `ScheduleErrors`, `ScheduleBuffers`,
  `ScheduleObjects`) with the engine that executes them, and the packed **status** words (`Status`).
  `Bits` ties the arithmetic of handles and status words to masks and shifts.

Code that updates objects or arrays in place is modelled by classes and methods with loops; the
protocols are step relations over values. A class method ends in the same abstract state as the
operation of the value-level model, and the lemmas over all runs are about that model.

`dafny verify dfyconfig.toml` checks everything.

## What the code does not do

Six properties one would expect of the source are false of it. Each is kept as the code has it
and stated with the exact condition under which it holds.

* `output_data` uses the image height as row stride. With that stride no two covered pixels share a
  cell if and only if the covered width is at most the height or the height is 1
  (`Drawing.InjectiveIff`), and all of them fall into the array if and only if the last one does
  (`Drawing.InBoundsIff`). Square images satisfy both; `Drawing.OblongIsUnsound` gives images that
  fail. The message farm is proved for every image size with a sound layout.
* The tiles cover an image side only when 20 divides it or it is below 20
  (`Tiles.WholeSideCovered`), and they are disjoint only when both sides are at least 20
  (`Tiles.ApartIff`).
* In the fence program an idle worker puts one value at displacement `-width - 1`. Some put misses
  the window if and only if the number of workers does not divide 400
  (`FenceFarmProofs.FinalImage`). With argument checking on, `MPI_Put` rejects such a put and the
  program stops, so that then it finishes if and only if the number of workers divides 400
  (`FenceFarmChecks.CheckedRunsFinishIff`).
* `MPIR_T_pvar_handle_alloc_impl` sets the watermark bit in the handle's flags and then overwrites
  the flags with the registered ones. A watermark variable reads right in every run if and only if
  its registration carries the bit (`Watermark.RightIffMarked`); otherwise its handles read the
  level.
* A schedule need not finish. If a local operation fails in the first round, the schedule is never
  handed to the progress engine, whatever comes after the operation. If one fails in a later round,
  the round is cut short, and an entry is lost for good if and only if the failed operation is
  neither a barrier nor the last entry (`ScheduleProofs.AbortLoses`). And a receive that fails to
  start without a request never completes. A schedule can finish if and only if none of the three
  has happened (`ScheduleProofs.FinishesIff`); `ScheduleBuffers.FirstRoundFails`,
  `ScheduleBuffers.LaterRoundFails` and `ScheduleBuffers.ReceiveNeverStarts` are inputs.
* A buffer handed to COMMIT may leak. It can still be freed if and only if its callback has begun or
  the schedule can still finish, and after an aborted start if and only if its callback lies in
  front of the operation that failed (`ScheduleBuffers.CommittedFreedIff`,
  `ScheduleBuffers.CommitLeaks`).

Smaller ones: the growth loop of `utarray_reserve` does not end when its 32-bit sum exceeds 2^31
(`UtArray.GrowthEndsIff`) and makes enough room if and only if the true sum does not
(`UtArray.GrowthSufficesIff`); an array inserted into itself gets its own elements if and only if
they repeat with the insertion position as period (`UtArray.SelfInsertIff`); growing an array with an `init` callback by `utarray_resize` passes NULL
to it (`UtArray.UtArray.Resize`); a keyval stamped with an object kind is found again if and only
if its block is below 1024 (`Handles.IndirectKeyvalFoundIff`); a count of 2^63 or more loses its
top bit (`Status.SetCountMeaning`). The comment above the atomic `MPIR_cc_incr` says that
`was_incomplete` is true when the counter was zero; the code stores the old value, so the opposite
holds, and the model follows the code.

## Model

| member | source | states |
|---|---|---|
| `Mandelbrot.PointCount` | examples/pmandel.c:1279-1304 | the loop returns the escape count of the start point, for the single, the subtractive and the additive equation |
| `Mandelbrot.CountDescribesOrbit` | examples/pmandel.c:1291-1301 | all orbit points before the count are inside the limit, and the point at the count is outside unless the cap was reached |
| `Mandelbrot.CountIsCappedEscapeTime` | examples/pmandel.c:1264-1301 | the count is the minimum of the cap and the escape time, where the escape time is defined on the orbit alone |
| `Mandelbrot.CapOnlyClips` | examples/pmandel.c:1291-1301 | raising the cap never changes the count of a point that escaped below the lower cap |
| `Mandelbrot.EscapeIsForever` | examples/pmandel.c:38-42 | with c in the view square an orbit that has reached modulus 4 stays there forever |
| `Mandelbrot.CountDecidesDivergence` | examples/pmandel.c:1208-1253 | hence the count decides for every iterate below the cap whether it is inside |
| `Mandelbrot.QuadraticInCoordinates` | examples/pmandel.c:1291-1297 | z*z + c in coordinates |
| `Mandelbrot.SubtractiveInCoordinates` | examples/pmandel.c:1026-1033 | z*(1 - z) in coordinates |
| `Mandelbrot.AdditiveInCoordinates` | examples/pmandel.c:1065-1070 | z*(z + c) in coordinates |
| `Mandelbrot.InsideDefault` | examples/pmandel.c:38-38 | inside the default limit is the open disc of radius 4 |
| `Tiles.BuildTiles` | examples/pmandel.c:355-374 | the nested loops fill the four arrays with the 400 tiles of the split |
| `Tiles.TileWithinImage` | examples/pmandel.c:367-370 | every tile is a nonempty rectangle inside the image and the covered corner |
| `Tiles.CoverageExact` | examples/pmandel.c:356-373 | a pixel is in some tile if and only if it lies in the covered corner |
| `Tiles.WholeSideCovered` | examples/pmandel.c:356-361 | a side is wholly covered if and only if 20 divides it or it is below 20 |
| `Tiles.ApartIff` | examples/pmandel.c:356-373 | the tiles are pairwise disjoint if and only if both sides are at least 20 |
| `Tiles.SwapInts` | examples/pmandel.c:142-148 | swaps two elements, which may be the same one |
| `Tiles.ShuffleTiles` | examples/pmandel.c:376-386 | parallel swaps of the four arrays permute whole tiles, for any draws |
| `Tiles.ShuffleKeepsTiles` | examples/pmandel.c:376-386 | the shuffled tiles are the same multiset |
| `Tiles.ShuffleKeepsApart` | examples/pmandel.c:376-386 | disjoint tiles stay disjoint |
| `Tiles.ShuffledSplitIsTiling` | examples/pmandel.c:355-386 | for any draws the result is 400 proper tiles whose union is the covered corner |
| `Drawing.ComputeTile` | examples/pmandel.c:481-522 | the worker's loops fill its buffer with the tile's escape counts in row order |
| `Drawing.PixelCorners` | examples/pmandel.c:478-498 | pixel (0, 0) is the point (xMin, yMax), and (across, down) would be (xMax, yMin) |
| `Drawing.PixelSteps` | examples/pmandel.c:478-498 | one column adds (xMax - xMin) / across to the real part only, one row subtracts (yMax - yMin) / down from the imaginary part only |
| `Drawing.EquationChoice` | examples/pmandel.c:499-520 | a Julia image iterates with its constant; otherwise alternate 1 and 2 select the variants and anything else takes the pixel itself as c |
| `Drawing.PixelDescribesOrbit` | examples/pmandel.c:499-521 | a pixel counts the orbit that starts at its own point, against the limit and the cap of the program |
| `Drawing.QuitIffOnePoint` | examples/pmandel.c:473-476 | the announcement that ends the program is the one under which all pixels are one point |
| `Drawing.OutputData` | examples/pmandel.c:1306-1317 | the loops store the buffer cell by cell with the height as stride |
| `Drawing.DrawEffect` | examples/pmandel.c:1306-1317 | with a sound stride a drawn tile shows its counts and no other cell changes |
| `Drawing.InjectiveIff` | examples/pmandel.c:1314 | different covered pixels get different cells iff the covered width is at most the height or the height is 1 |
| `Drawing.InBoundsIff` | examples/pmandel.c:1314 | covered pixels stay inside the array iff the last covered one does |
| `Drawing.SquareIsSound` | examples/pmandel.c:1314 | square images have a sound layout |
| `Drawing.OblongIsUnsound` | examples/pmandel.c:1314 | a 40 x 20 image stores two covered pixels in one cell, a 20 x 40 image runs past its array |
| `MessageFarmProofs.StepOk` | examples/pmandel.c:400-531 | every step of root or worker keeps the invariant of the protocol |
| `MessageFarmProofs.ImagesAreSequential` | examples/pmandel.c:345-449 | in every run, whenever an image is finished, every covered pixel holds its sequential count and no other cell was ever written |
| `MessageFarmProofs.NoTileTwice` | examples/pmandel.c:400-449 | in every reachable state no tile is with two workers, all workers hold a tile at the head of the main loop, and a body behind a header is the data of that header's tile |
| `MessageFarmProofs.HandedOutOnce` | examples/pmandel.c:400-449 | in every run two steps that hand out tiles of one image hand out different tiles, the later one a higher index |
| `MessageFarmProofs.HandOutSends` | examples/pmandel.c:400-438 | a hand-out sends k + 1 and the bounds of tile k to one worker and moves on to k + 1 |
| `MessageFarmProofs.BodyMatchesHeader` | examples/pmandel.c:411-423 | the body has the length the receive asks for and its tile fits the image |
| `MessageFarmProofs.BoundaryIsQuiet` | examples/pmandel.c:441-449 | when an image ends the result channels are empty, and the work channel holds at most the stop of a worker that has not yet read it |
| `MessageFarmProofs.StrictBoundaryIsSilent` | examples/pmandel.c:441-449 | if no send is buffered, every channel is empty and every worker waits when an image ends |
| `MessageFarmProofs.NeverStuck` | examples/pmandel_spawn.c:458-509 | no reachable state short of the end is stuck, even if every send blocks until its receive, in both programs |
| `MessageFarmProofs.CostAlongRun` | examples/pmandel_spawn.c:544-598 | a measure over root, lanes and remaining images falls by one with every step |
| `MessageFarmProofs.AllRunsEqualLength` | examples/pmandel.c:400-531 | all runs, buffered or not, have the same length, and a run of that length is exactly a finished one |
| `FenceFarm.HandOutWork` | examples/pmandel_fence.c:435-470 | the hand-out loop deals the next tiles and marks the rest idle |
| `FenceFarmProofs.DealToClosed` | examples/pmandel_fence.c:443-466 | round r gives worker i tile r * workers + i, or the idle record past 400 |
| `FenceFarmProofs.TileHandedOutOnce` | examples/pmandel_fence.c:443-466 | every tile goes out in exactly one round to exactly one worker |
| `FenceFarmProofs.VectorPutIsCellPuts` | examples/pmandel_fence.c:592-653 | the single vector put of a tile writes the same cells with the same values as the puts per cell |
| `FenceFarmProofs.IdlePuts` | examples/pmandel_fence.c:459-463 | the idle record makes a worker put one value at displacement -width - 1; what the argument check does with it is in `FenceFarmChecks.CheckedRunsFinishIff` |
| `FenceFarmProofs.WrittenEffect` | examples/pmandel_fence.c:603-652 | the effect of an epoch's puts does not depend on the order in which they land |
| `FenceFarmProofs.StepOk` | examples/pmandel_fence.c:435-680 | every step and every fence keeps root and workers in lockstep |
| `FenceFarmProofs.FencesMatch` | examples/pmandel_fence.c:572-679 | whenever a fence completes all processes are at the same fence of the program |
| `FenceFarmProofs.FinalImage` | examples/pmandel_fence.c:435-532 | a finished image took 3R + 2 fences, shows every covered pixel, leaves uncovered cells alone, and a put missed the window iff the workers do not divide 400 |
| `FenceFarmProofs.RoundsUnique` | examples/pmandel_fence.c:435-470 | R is the least number of rounds that deals 400 tiles |
| `FenceFarmProofs.WorkersPutApart` | examples/pmandel_fence.c:592-653 | on disjoint tiles the puts of different workers in one epoch never touch the same cell |
| `FenceFarmChecks.SplitWorkersPutApart` | examples/pmandel_fence.c:391-408 | hence for sides of at least 20, however the tiles were shuffled |
| `FenceFarmChecks.CheckedRunsFinishIff` | src/mpi/rma/put.c:95-110 | a finished run had no put rejected by the argument check iff the workers divide 400 |
| `FenceFarmProofs.NeverStuck` | examples/pmandel_fence.c:555-680 | no reachable state short of the end is stuck |
| `FenceFarmProofs.AllRunsEqualLength` | examples/pmandel_fence.c:435-680 | all runs have the same length, reached exactly by the finished ones |
| `Handles.DirectFields` | src/include/mpir_objects.h:162-204 | kind, object kind and index are read back from a direct handle |
| `Handles.IndirectFields` | src/include/mpir_objects.h:162-204 | kind, object kind, block and index are read back from an indirect handle |
| `Handles.FieldsDetermine` | src/include/mpir_objects.h:162-204 | the fields determine the handle |
| `Handles.HandleNumbers` | src/include/mpir_objects.h:170-190 | direct and indirect handles as numbers |
| `Handles.DirectNumber` | src/include/mpir_objects.h:170-204 | direct handles of every index as numbers |
| `Handles.KindQuarters` | src/include/mpir_objects.h:169-178 | the four kinds are the four quarters of the handle space |
| `Handles.StampIsRead` | src/mpi/attr/comm_create_keyval.c:62-63 | the object kind stamped into a keyval is read back |
| `Handles.DirectKeyvalFoundIff` | src/include/mpir_objects.h:490-514 | a stamped direct keyval leads to the original handle iff its index is below 2^22 |
| `Handles.IndirectKeyvalFoundIff` | src/include/mpir_objects.h:490-514 | a stamped indirect keyval leads to the original handle iff its block is below 1024 |
| `Handles.MasksAre` | src/include/mpir_objects.h:162-204 | the masks of the source by the bits they select |
| `Handles.ReadersAgree` | src/include/mpir_objects.h:162-204 | masks and shifts on the bits of a handle read what the arithmetic readers read |
| `Handles.DirectBuilt` | src/include/mpir_handlemem.h:110-111 | or-ing the shifted fields builds the direct handle |
| `Handles.IndirectBuilt` | src/include/mpir_handlemem.h:162-163 | or-ing the shifted fields builds the indirect handle |
| `Handles.StampAgrees` | src/mpi/attr/comm_create_keyval.c:62-63 | masking, shifting and or-ing stamps the keyval |
| `PoolSpec.ExistsByFields` | src/include/mpir_objects.h:440-478 | which handles exist, by their fields |
| `PoolSpec.AllocKeepsInv` | src/include/mpir_handlemem.h:233-286 | allocation keeps the objects split into live ones and a free list without repetition |
| `PoolSpec.FreeKeepsInv` | src/include/mpir_handlemem.h:337-386 | freeing keeps that split |
| `PoolSpec.AllocMeaning` | src/include/mpir_handlemem.h:233-286 | allocation never returns a live object, and with memory it fails only when all 8192 blocks exist and none is free |
| `PoolSpec.RunKeepsInv` | src/include/mpir_handlemem.h:96-175 | the split, at most 8192 blocks and direct_size + 1024 * blocks objects, after any sequence of allocations and frees |
| `PoolSpec.ExistsForever` | src/include/mpir_handlemem.h:96-175 | a handle that exists keeps existing |
| `PoolSpec.NeverHandedOutTwice` | src/include/mpir_handlemem.h:233-286 | a handle is not handed out again before it was freed, over any sequence of operations |
| `PoolSpec.LiveHandleNumbers` | src/include/mpir_handlemem.h:110-163 | every handle that is live in a run lies in the direct or indirect quarter, in the range of its pool; builtin ones are never handed out |
| `PoolSpec.AllocsInOrder` | src/include/mpir_handlemem.h:233-286 | without frees the objects come in order, 1024 to a block, until 8192 blocks are used up |
| `PoolSpec.LastFreedFirst` | src/include/mpir_handlemem.h:337-386 | what was freed last is handed out first |
| `HandlePool.InitBlock` | src/include/mpir_handlemem.h:96-175 | the loop chains a block's objects in order and labels each with its handle |
| `HandlePool.Pool.Alloc` | src/include/mpir_handlemem.h:233-286 | the linked list does what the abstract allocator does, with the same failures, and touches no object in use |
| `HandlePool.Pool.FirstBlock` | src/include/mpir_handlemem.h:96-119 | the direct block is set up at the first allocation |
| `HandlePool.Pool.NextBlock` | src/include/mpir_handlemem.h:121-175 | a further block is entered into the table and put on the list |
| `HandlePool.Pool.Free` | src/include/mpir_handlemem.h:337-386 | the object goes to the front of the list |
| `HandlePool.Pool.OwnerWrites` | src/include/mpir_objects.h:410-415 | the owner may overwrite the word that `next` shares with live data |
| `HandlePool.Pool.UniqueObject` | src/include/mpir_handlemem.h:110-163 | different objects have different handles |
| `HandlePool.Pool.ObjectPlace` | src/include/mpir_handlemem.h:110-163 | an object's handle names its place |
| `HandlePool.Pool.Lookup` | src/include/mpir_handlemem.h:391-423 | lookup returns the object of an existing handle, and tells when the code would return a wild pointer |
| `Lifetime.StepOk` | src/include/mpir_request.h:166-280 | every atomic step of any thread keeps counts equal to references; how many a step makes is in `LifetimeLedger.CountsAreBalances` |
| `Lifetime.HoldersSeeLiveObjects` | src/include/mpir_objects.h:319-327 | in every run whoever holds a reference sees a live object |
| `Lifetime.ExactlyOnce` | src/include/mpir_comm.h:227-242 | in every run exactly one releaser sees zero, each request returns to the pool once, and a communicator is deleted once, after its last user and request |
| `Lifetime.NothingLeaks` | src/include/mpir_request.h:231-280 | when all references are gone, everything is returned and deleted or some thread still has a step to do it |
| `Lifetime.TakingApartCosts` | src/include/mpir_request.h:231-280 | those steps come to an end |
| `LifetimeLedger.CountsAreBalances` | src/include/mpir_objects.h:265-276 | in every run a request counts 1 + add-refs - releases, and a communicator 1 + add-refs - releases + attachments - drops |
| `LifetimeLedger.OutOfUseIff` | src/include/mpir_request.h:231-280 | a request is out of use iff its releases outnumber its add-refs by one, and then it is returned or can be taken apart further |
| `LifetimeLedger.CommOutOfUseIff` | src/include/mpir_comm.h:227-242 | a communicator is dying or deleted iff its balance is zero |
| `LifetimeLedger.HoldersCanRelease` | src/include/mpir_request.h:225-229 | a thread can release exactly what it was given more often than it gave up |
| `Completion.PlainCounter.Perform` | src/include/mpir_refcount_single.h:13-26 | the plain counter's new value and answers |
| `Completion.AtomicCounter.Perform` | src/include/mpir_refcount_pobj.h:45-79 | the atomic counter's new value and answers |
| `Completion.FormsAgree` | src/include/mpir_refcount_pobj.h:59-79 | over any sequence of operations both forms give answers with the same truth values and stop at the same failed assertion |
| `Completion.CompletersBalance` | src/include/mpir_refcount_pobj.h:59-79 | decrementers that saw completion and incrementers that saw it undone differ by whether the counter is complete |
| `Completion.ExactlyOneCompleter` | src/include/mpir_refcount_pobj.h:59-79 | without such incrementers exactly one decrementer sees a finished counter complete |
| `Completion.ValueIsBalance` | src/include/mpir_refcount_single.h:17-26 | without a set the counter holds its first value plus increments less decrements |
| `Completion.SetForgets` | src/include/mpir_refcount_single.h:14-14 | after a set only what follows counts |
| `Completion.AnswersMeanValue` | src/include/mpir_refcount_single.h:15-26 | both forms call zero, and only zero, complete |
| `UtArray.GrowthEndsIff` | src/include/mpir_utarray.h:107-115 | the growth loop ends iff the 32-bit sum it compares is at most 2^31 |
| `UtArray.GrowthSufficesIff` | src/include/mpir_utarray.h:107-115 | the loop makes room for i + by elements iff that is at most 2^31, wrap-around included |
| `UtArray.CapacityClosed` | src/include/mpir_utarray.h:110 | the capacities are 0 and 8 * 2^k |
| `UtArray.Grown` | src/include/mpir_utarray.h:110 | the loop reaches a capacity that suffices and is less than twice the need |
| `UtArray.UtArray.Reserve` | src/include/mpir_utarray.h:107-115 | contents stay, there is room, capacity is 0 or 8 * 2^k |
| `UtArray.UtArray.PushBack` | src/include/mpir_utarray.h:117-121 | appends and counts the element as made |
| `UtArray.UtArray.PopBack` | src/include/mpir_utarray.h:123-126 | removes and destroys the last element |
| `UtArray.UtArray.ExtendBack` | src/include/mpir_utarray.h:128-133 | appends an initialized or zeroed element |
| `UtArray.UtArray.Insert` | src/include/mpir_utarray.h:140-149 | inserts, or leaves the contents alone when the position is out of range |
| `UtArray.UtArray.InsertArray` | src/include/mpir_utarray.h:152-171 | inserts the elements of an array, or nothing when out of range; of the array itself, what the forward copy reads |
| `UtArray.SelfInsertIff` | src/include/mpir_utarray.h:160-165 | inserting an array into itself at j inserts its own elements iff they repeat with period j |
| `UtArray.UtArray.Resize` | src/include/mpir_utarray.h:173-192 | shrinks or zero-fills; reports exactly when NULL is handed to `init` |
| `UtArray.UtArray.Concat` | src/include/mpir_utarray.h:194-196 | appends the elements of an array, itself included |
| `UtArray.UtArray.Erase` | src/include/mpir_utarray.h:198-210 | removes the range and destroys exactly its elements |
| `UtArray.UtArray.Clear` | src/include/mpir_utarray.h:212-222 | empties the array and destroys its elements |
| `UtArray.UtArray.Done` | src/include/mpir_utarray.h:83-93 | every element ever made has been destroyed; `i` is left as it was |
| `UtArray.UtArray.Iterate` | src/include/mpir_utarray.h:229-233 | iterating with utarray_next visits each element once, in order |
| `UtArray.GapFilled` | src/include/mpir_utarray.h:143-146 | memmove and copy together are the insertion |
| `UtArray.GapClosed` | src/include/mpir_utarray.h:205-208 | memmove is the removal |
| `UtArray.EraseUndoesInsert` | src/include/mpir_utarray.h:198-210 | erasing what was inserted gives the sequence back |
| `UtArray.AppendAll` | src/include/mpir_utarray.h:107-121 | m appends to an empty array move at most 2m elements |
| `Watermark.HandlesReadRight` | src/include/mpitimpl.h:805-871 | after any run each handle reads the largest (for a low watermark the smallest) of its starting value and exactly the values that arrived while it was started, or an error if it has no starting value |
| `Watermark.CacheIsTransparent` | src/include/mpitimpl.h:255-274 | the cached first handle reads what it would read in the list |
| `Watermark.RightIffMarked` | src/mpi_t/pvar_handle_alloc.c:89-99 | reading right in every run iff the registration carries the watermark bit |
| `Watermark.RunInv` | src/mpi_t/pvar_handle_alloc.c:128-159 | every operation keeps one cached handle at most and a list of the others without repetition |
| `Watermark.ReadsRight` | src/mpi_t/pvar_read.c:139-191 | in any state the invariant allows, a reading is the right one |
| `Pvar.Variable.Update` | src/include/mpitimpl.h:805-820 | the cached mark and the walk along the linked list leave every handle as the history of operations calls for |
| `Pvar.Variable.HandleAlloc` | src/mpi_t/pvar_handle_alloc.c:83-159 | a new handle takes the cache or the head of the list, and all handles stay as the history calls for |
| `Pvar.Variable.Start` | src/mpi_t/pvar_start.c:34-71 | started handles account for their starting value and for what arrives from now on; a continuous variable refuses |
| `Pvar.Variable.Stop` | src/mpi_t/pvar_stop.c:34-100 | a stopped handle accounts for nothing further; a continuous variable refuses |
| `Pvar.Variable.Reset` | src/mpi_t/pvar_reset.c:34-71 | a running handle restarts from the level, a stopped one has no starting value; a read-only variable refuses |
| `Pvar.Variable.HandleFree` | src/mpi_t/pvar_handle_free.c:34-66 | the handle is unlinked or gives up the cache, and the other handles stay as the history calls for |
| `Pvar.Variable.Link` | src/mpi_t/pvar_handle_alloc.c:144-153 | both links of every handle are right after a handle was put at the head |
| `Pvar.Variable.Unlink` | src/mpi_t/pvar_handle_free.c:48-59 | both links of every handle are right after a handle was taken out anywhere |
| `Pvar.UpdateListed` | src/include/mpitimpl.h:813-819 | the walk along the links updates exactly the started handles of the list |
| `Pvar.Variable.ReadHandle` | src/mpi_t/pvar_read.c:33-198 | a read returns the largest (smallest) of the starting value and of the values that arrived while the handle was started, or the error if it has no starting value; without the registered flag, the level |
| `ScheduleObjects.ScheduleObject.Continue` | src/mpid/common/sched/mpidu_sched.c:299-332 | the loop starts what the barriers permit |
| `ScheduleObjects.ScheduleObject.Progress` | src/mpid/common/sched/mpidu_sched.c:882-946 | one pass over the entries of a schedule |
| `ScheduleObjects.ScheduleObject.Launch` | src/mpid/common/sched/mpidu_sched.c:131-290 | new status, request, error flag and abort of a started entry |
| `ScheduleObjects.ScheduleObject.AddBarrier` | src/mpid/common/sched/mpidu_sched.c:792-803 | marks the previous entry, if any |
| `ScheduleObjects.BufferStack.Malloc` | src/include/mpir_nbc.h:118-128 | a buffer is pushed, or an error is reported for a nonempty request |
| `ScheduleObjects.BufferStack.Reap` | src/include/mpir_nbc.h:134-139 | every buffer is freed at once, last first, and no schedule is involved |
| `ScheduleObjects.BufferStack.CommitTo` | src/include/mpir_nbc.h:141-152 | a barrier and one freeing callback per buffer |
| `ScheduleProofs.BarriersHold` | src/include/mpir_nbc.h:77-79 | in every run an entry behind a barrier begins only after every entry up to the barrier has ended |
| `ScheduleProofs.EntriesRunOnce` | src/mpid/common/sched/mpidu_sched.c:299-332 | in every run an entry begins and ends at most once, and exactly once when the schedule has finished |
| `ScheduleBuffers.CommittedBuffers` | src/include/mpir_nbc.h:113-152 | in every run each committed buffer is freed at most once, exactly once if the schedule finishes, and at no time before the entries that preceded COMMIT have ended |
| `ScheduleBuffers.CommittedFreedIff` | src/include/mpir_nbc.h:141-152 | exactly when a committed buffer can still be freed: after an aborted start iff its callback precedes the failed operation, otherwise iff the callback has begun or nothing keeps the schedule from finishing |
| `ScheduleBuffers.FreedIff` | src/mpid/common/sched/mpidu_sched.c:231-251 | a buffer with one freeing entry can still be freed iff that entry has begun or the run can finish |
| `ScheduleBuffers.CommitLeaks` | src/mpid/common/sched/mpidu_sched.c:431-458 | a buffer committed behind a local operation that fails in the first round is never freed |
| `ScheduleProofs.NeverStuck` | src/mpid/common/sched/mpidu_sched.c:882-946 | a run that has lost nothing has finished or its first outstanding entry has begun, and a pass that finds all requests complete and starts all it reaches finishes the schedule |
| `ScheduleProofs.FailuresAreReported` | src/mpid/common/sched/mpidu_sched.c:161-176 | in every run a failed entry other than a local operation has set the error flag, which is never cleared |
| `ScheduleErrors.CallsFollow` | src/mpid/common/sched/mpidu_sched.c:131-290 | every call gives each entry the status that its kind and the world decide, and sets the error flag exactly by a fault |
| `ScheduleErrors.ErrorIff` | src/mpid/common/sched/mpidu_sched.c:889-925 | in every run the error flag is set iff an entry other than a local one failed to start or a receive completed garbled |
| `ScheduleErrors.QuietRunSucceeds` | src/mpid/common/sched/mpidu_sched.c:231-251 | if nothing fails and nothing is garbled, no error is reported and every ended entry is complete |
| `ScheduleProofs.AbortLoses` | src/mpid/common/sched/mpidu_sched.c:307-313 | a pass loses an entry iff it was cut short by an operation that is neither a barrier nor the last entry |
| `ScheduleProofs.LostForever` | src/mpid/common/sched/mpidu_sched.c:932-945 | a schedule that lost an entry never finishes, however often it is polled |
| `ScheduleProofs.FinishesUnlessLost` | src/mpid/common/sched/mpidu_sched.c:885-948 | a run can still finish iff its start did not abort, it has lost no entry and no started entry lacks its request |
| `ScheduleProofs.FinishesIff` | src/mpid/common/sched/mpidu_sched.c:413-461 | the same in terms of what failed: no failure in the first round, none in a later round that is neither a barrier nor last, no receive without a request |
| `ScheduleBuffers.FirstRoundFails` | src/mpid/common/sched/mpidu_sched.c:429-458 | a schedule whose first operation is local and fails never finishes |
| `ScheduleBuffers.LaterRoundFails` | src/mpid/common/sched/mpidu_sched.c:299-332 | a failing operation of a later round is fatal with an entry behind it and harmless at the end |
| `ScheduleBuffers.ReceiveNeverStarts` | src/mpid/common/sched/mpidu_sched.c:178-201 | a receive that fails to start without a request keeps its schedule from finishing |
| `Status.StatusObject.SetCount` | src/include/mpir_status.h:23-28 | the count reads back iff it is below 2^63 and the flag stays |
| `Status.StatusObject.SetCancelBit` | src/include/mpir_status.h:33-37 | the flag reads back and the count stays |
| `Status.SetCountMeaning` | src/include/mpir_status.h:23-31 | a count reads back without bit 63 |
| `Status.LastSettersWin` | src/include/mpir_status.h:23-39 | after any sequence of setters the getters return the last count and the last flag |
| `Status.BitsAgree` | src/include/mpir_status.h:23-39 | the masks, shifts and ors of the four macros compute the words and readings of the model |

## Left out

- Sockets, the visualizer link, argument parsing, prompts and image files of the pmandel programs; a list of inputs ending in the quitting view stands for them.
- `examples/pmandel_service.c` and `examples/pmandel_spaserv.c`, which repeat these protocols over another link.
- Floating-point rounding: coordinates are exact reals and moduli are compared squared.
- The limits, the cap and the Julia constant travel in several broadcasts; the message farm treats them as one announcement.
- In the message farms a worker's computation is one step with the receive of its work, and the root's counter moves in the step that posts a send; neither can be seen by another process.
- The fence farm follows one image per run; the record windows hold arbitrary values when it starts.
- The puts of an idle worker outside the window are modelled as writes to a cell of their own; what they damage in the root's memory is not, nor that with one put per cell the idle worker also writes in front of its own `grid_array` (examples/pmandel_fence.c:641).
- Message order and fence completion are those of sections 3.5 and 11.5.1 of MPI 3.1; how the library achieves them is not modelled.
- Weak memory and handle publishing: every atomic operation is one sequentially consistent step.
- Object kinds other than requests and communicators, the device parts of a request, and what deleting a communicator does beyond giving up the object.
- Overflow of reference counts, completion counters and schedule sizes past 2^31.
- Failing MPI assertions other than those of the completion counter are preconditions here, and logging, Valgrind annotations and memory tracing have no counterpart.
- UtArray.UtArray.Reserve: requires that at most 2^31 slots are needed, because the loop does not end otherwise, as `UtArray.GrowthEndsIff` shows.
- UtArray.UtArray.InsertArray: without a copy callback, an array inserted into the middle of itself is an overlapping memcpy, whose effect C leaves undefined; the model copies forward in both cases.
- UtArray.UtArray.Erase: requires a range inside the array; the macro does not check it.
- `utarray_sort` and `utarray_find`, which call the C library.
- Counter, timer and aggregate performance variables, and sessions that address all handles at once.
- Watermark.HandlesReadRight: values are reals; a NaN level of a double variable is not modelled.
- Callbacks of a schedule that append entries to it while it is being executed, and failing allocations while a schedule is built; COMMIT is taken on the schedule that its barrier marks.
- ScheduleBuffers.CommittedBuffers: requires the buffers on the stack to be distinct and not freed by other entries, as distinct allocations are.
- A send that fails to start is taken to leave no request behind; the code would only mark it failed once more.
- Collective algorithms, datatypes, groups and the rest of the library.
