# TokenCake in Dafny

A model of the parts of TokenCake (a vLLM fork that schedules agent workloads and offloads their KV cache)
where correctness is hardest to see, with proofs of what those parts promise. Each module follows one piece
of the repository.

| files | piece of the system |
|---|---|
| PartitionSignatures, PartitionMeaning | the compiler pass that cuts a graph into partitions and signs each with its inputs, outputs and deallocations |
| MemoryPlanning | buffer planning over nested subgraph lines |
| Sums, PrenormGemm, PrenormBlockM, MhcFused, Sinkhorn, MhcTorch, MhcPre | the split, tiled and fused mHC kernels, and their PyTorch reference |
| BuildSweep | weighted build times from an event sweep |
| Chunking, GpuDriver, PoolState, CumemAllocator, AllocatorRuns | the sleepable device-memory allocator, down to the driver calls |
| Spinloop | the arm, check again and wait protocol |
| OffloadManager, Lifecycles | CPU blocks for offloaded KV data and the agents' claims on them |
| Capacity, Admission, ExecutedRanges | the TokenCake scheduler's reservations, charges and recomputation metric |
| Quantiser, SpTokens, EnvsCache | int8 quantisation, sequence-parallel token counts, the settings cache |
| Arith, Sorting, Options | arithmetic and sorting facts, optional values |

Code that updates things in place is written as classes, arrays and loops, each method proved against a
function of the old state; code that only computes is written as functions. Integers are unbounded except
where 32 or 64 bits matter, and there the wrap-around is written out. Kernels, quantiser and scheduler
arithmetic are over exact reals; `exp`, `sigmoid` and `rsqrt` are parameters, with `exp` positive. Driver
behaviour is a parameter too: `fate(n)` is the status the driver reports on its own account at its n-th call,
so a statement about every `fate` covers every way calls can fail. Time is a parameter of each call.

## What the proofs found

- A line list that leaves the outermost subgraph and enters again gets past the final assertion of buffer
  planning (`MemoryPlanning.UnbalancedListPasses`); `MemoryPlanReuse` says exactly which lists finish.
- The partition pass keeps NoneLayout buffers out of reads and outputs but not out of last usages. The wrapper
  computes what the graph computes exactly if no partition frees a NoneLayout buffer that an earlier one made
  (`PartitionMeaning.SignaturesPreserveMeaningIff`); `NoneLayoutGraphFails` is a two-node graph that fails.
- The fused kernel rounds the number of output tiles down, so it leaves the last outputs unwritten unless the
  tile width divides their number (`MhcFused.FusedOutputsComplete`); the plain GEMM rounds up.
- Splits that do not divide the reduction length lose elements (`PrenormGemm.InexactLosesElement`).
- The overflow guard on the chunk-size setting admits values for which one of three later sums still overflows:
  rounding the chunk size up gives zero and the next division is by zero
  (`Chunking.LargestSettingDividesByZero`), counting the chunks gives none
  (`Chunking.AdmittedSettingGetsNoChunk`), and rounding a size up gives zero. `Chunking.Overflows` names the
  outcome of each, and `ChunkSizes` makes a table that covers the request exactly if none of them happens. With
  no chunk, `my_malloc` returns an address with nothing mapped behind it unless `cuMemSetAccess` objects.
- An error left over from an earlier call makes `create_and_map` create one handle and lose it; a failing
  `cuMemSetAccess` leaves everything mapped; a failed `my_malloc` leaves its entry in the Python table with
  freed cells; `my_free` gives the address range back only if the caller's size was already rounded; waking
  an allocation that is awake overwrites the cells that hold its live handles.
- The monitor is safe exactly if the buffer lies in one monitor line; the code only compares lengths
  (`Spinloop.SafeIff`).
- Asymmetric quantisation to at most 8 bits brings a row back within half a step exactly if its zero point lies
  strictly between -2^31 and 2^31 (`Quantiser.AsymmetricComesBackIff`); constant rows of large values do not
  qualify (`Quantiser.ConstantRowOverflows`).
- A key given twice to `prepare_store` loses a CPU block (`OffloadManager.StoreKeepsPool`).

## Model

| member | source | states |
|---|---|---|
| PartitionSignatures.PartitionSignature | vllm/env_override.py:198-336 | The backward loop gives the signatures of the declarative definition for the last `min(partitions, flags)` partitions, each of which, node by node, names what its partition takes, gives back, frees and uses as constants, with the flag aligned to it from the end; or KeyError exactly when a name it returns has no node |
| PartitionSignatures.SignOne | vllm/env_override.py:235-334 | One turn of the loop: inputs, outputs, deallocations, flag and constants of the signature in terms of what the nodes make, touch and use last, and the names still unmet before the partition |
| PartitionSignatures.SignatureDescribes | vllm/env_override.py:238-334 | The set operations of the pass say of every partition what its nodes make, touch and use last |
| PartitionMeaning.SignaturesPreserveMeaningIff | vllm/env_override.py:235-334 | For every well-formed scheduled graph, with renaming and with NoneLayout buffers anywhere in the last usages, the wrapper that takes inputs and listed constants, frees and binds outputs by the signatures ends with every graph output bound to the tensor the unpartitioned graph computes exactly if no partition frees a NoneLayout buffer it did not make; otherwise it misses a buffer |
| PartitionMeaning.NoneLayoutGraphFails | vllm/env_override.py:268-280 | A well-formed graph of two nodes for which it does |
| PartitionMeaning.ConstantsAreThoseUsed | vllm/env_override.py:315-317 | A signature of a well-formed graph lists a constant exactly if some node of its partition uses it |
| PartitionMeaning.PartitionAgrees | vllm/env_override.py:253-291 | A partition on its inputs alone, freeing as it goes, computes what the nodes compute on all buffers and keeps what it did not free |
| PartitionMeaning.ReturnedAreMadeOrPassed | vllm/env_override.py:293-313 | What a partition returns it made or was passed, and did not free; every input it did not free it returns |
| PartitionMeaning.ReturnedExactly | vllm/env_override.py:243-334 | In every such graph that frees no NoneLayout buffer of another partition, a buffer made in a partition is returned exactly if it backs a graph output made there or a later partition takes it, and every input that is not freed is returned |
| PartitionMeaning.FreeingNoneLayoutFails | vllm/env_override.py:268-280 | The failing half alone, with no well-formedness: any partition list in which a NoneLayout buffer from outside is freed fails in the wrapper |
| MemoryPlanning.Wrapper.MemoryPlanReuse | vllm/env_override.py:130-186 | Trimming then planning finishes exactly for plannable lists, each planning line being planned once in the state of its innermost subgraph; for other lists, where the stack runs empty or the assertion fails and what has been planned by then |
| MemoryPlanning.Wrapper.TrimLines | vllm/env_override.py:166-172 | The loop removes exactly the trailing planning lines of nodes that are not outputs |
| MemoryPlanning.Wrapper.PlanLines | vllm/env_override.py:174-186 | The stack of states refines looking for the enclosing subgraph backwards |
| MemoryPlanning.SubgraphsAreIsolated | vllm/env_override.py:177-184 | A subgraph is planned as if it stood alone, and what follows as if it were not there |
| MemoryPlanning.EnclosingConcat | vllm/env_override.py:177-184 | Which states a list sees after another one |
| MemoryPlanning.TrimmingKeepsBrackets | vllm/env_override.py:166-172 | Trimming neither makes nor breaks bracketing |
| MemoryPlanning.WellBracketedIsPlannable | vllm/env_override.py:174-186 | Every well-bracketed list gets through with the assertion holding |
| MemoryPlanning.UnbalancedListPasses | vllm/env_override.py:185-186 | The converse fails: a concrete unbalanced list passes |
| Sums.BlockSumIsSlice | vllm/_tilelang_ops.py:574-617 | Iterations, lanes and warps of a block add up a contiguous slice, each element once |
| Sums.SplitsCoverAll | vllm/_tilelang_ops.py:551-577 | Splits of equal stride add up the whole range |
| PrenormGemm.HcPrenormGemm | vllm/_tilelang_ops.py:537-617 | For every launch, every output cell in a tile holds its split's partial dot product and is written exactly once, other cells are left alone; the squares likewise |
| PrenormGemm.SplitsGiveDot | vllm/_tilelang_ops.py:549-617 | Summed over the splits it is the plain dot product if splits times threads divides the length |
| PrenormGemm.InexactLosesElement | vllm/_tilelang_ops.py:549-577 | Otherwise some vector gives a wrong sum |
| PrenormGemm.ExactCovers | vllm/_tilelang_ops.py:549-552 | When the slices cover the whole length |
| PrenormGemm.AllCellsWritten | vllm/_tilelang_ops.py:596-617 | All cells are written exactly if no tile is wider than a warp, whether or not the tile width divides the outputs |
| PrenormBlockM.HcPrenormGemmBlockM | vllm/_tilelang_ops.py:623-712 | The block-of-tokens kernel gives what the one-token kernel gives, for any number of tokens, each cell written once |
| MhcFused.MhcPost | vllm/_tilelang_ops.py:482-531 | Every entry of the new residual is the mix of the old streams and the layer output, whatever the block size |
| MhcFused.MixedIsEinsum | vllm/model_executor/kernels/mhc/torch.py:94-106 | The new residual is the reference's einsum of mixing matrix and residual, plus the gated layer output |
| MhcFused.MixingConserves | vllm/_tilelang_ops.py:482-531 | If the rows of the mixing matrix add up to 1, the sum over the channels is kept and the layer output added as often as the gates say |
| MhcFused.MhcFused | vllm/_tilelang_ops.py:359-476 | With no divisibility assumed: which cells the fused kernel writes, and that they hold the partial products of the residual that mhc_post computes |
| MhcFused.FusionPreservesGemm | vllm/_tilelang_ops.py:396-473 | Summed over splits the fused kernel gives what the separate GEMM gives on the flattened new residual, for every pair of evenly dividing launches |
| MhcFused.FlatDot | vllm/_tilelang_ops.py:444-446 | Products per stream and channel add up to the product of the flattened vectors |
| MhcFused.FusedResidualComplete | vllm/_tilelang_ops.py:428-442 | The residual is written completely exactly if splits times threads divides the hidden size and a tile is launched |
| MhcFused.FusedOutputsComplete | vllm/_tilelang_ops.py:396-473 | All outputs are written exactly if the tile width divides their number and fits a warp |
| Sinkhorn.CombMix | vllm/_tilelang_ops.py:125-157 | For every eps > 0 and repetition count: the whole chain of matrices, from the softmax on, each round dividing rows and then columns of the one before by their totals plus eps, and what each total then is; all entries end strictly between 0 and 1 and the column sums strictly below 1 |
| Sinkhorn.LastRound | vllm/_tilelang_ops.py:144-154 | With two repetitions or more the result is a column division of a row division of the result of one repetition less |
| Sinkhorn.SoftmaxIsPlain | vllm/model_executor/kernels/mhc/torch.py:78 | The first matrix of the chain is the plain softmax of the logits, plus eps |
| Sinkhorn.RowStepBounds | vllm/_tilelang_ops.py:144-149 | A row step takes each row sum R to R / (R + eps) and all entries into the unit interval |
| Sinkhorn.ColumnStepBounds | vllm/_tilelang_ops.py:150-154 | The same for columns |
| Sinkhorn.ShiftKeepsSoftmax | vllm/_tilelang_ops.py:126-137 | Subtracting the row maximum does not change the softmax |
| MhcPre.PreBigFuse | vllm/_tilelang_ops.py:55-188 | Layer input, post gates and mixing matrix of a token, whatever block size the gcd picks; the matrix stays within its bounds |
| MhcPre.PreBigFuseWithNorm | vllm/_tilelang_ops.py:197-353 | The kernel with norm gives RMSNorm of the plain kernel's layer input, and the same post gates and mixing matrix |
| MhcPre.SquaresByPosition | vllm/_tilelang_ops.py:321-341 | Squares kept per position in a block add up to the squares of the row |
| MhcPre.HeadFuse | vllm/_tilelang_ops.py:718-811 | The two-pass head kernel gives the gated sum of projections |
| MhcPre.HeadIsGemmThenPre | vllm/_tilelang_ops.py:718-808 | The head kernel equals the pre-mix of the pre block on any results the GEMM may hand over, for every evenly dividing launch |
| MhcPre.GemmTotals | vllm/_tilelang_ops.py:97-104 | Summing the GEMM's partial results gives dot products and sum of squares |
| MhcPre.MhcPreTilelang | vllm/model_executor/kernels/mhc/tilelang.py:150-258 | End to end, GEMM kernel then pre block: all three outputs of every token are those of the PyTorch reference, for every launch the caller's assertions admit and whose tiles are written |
| MhcPre.LayerInputIsTorch | vllm/model_executor/kernels/mhc/torch.py:62-86 | Normalised mixes, gates of the first slice and weighted sum of the kernel are those of the reference |
| MhcPre.PostGatesAreMiddle | vllm/model_executor/kernels/mhc/torch.py:70-73 | The post gates are those of the middle slice of the mixes |
| MhcPre.CombLogits | vllm/model_executor/kernels/mhc/torch.py:75-77 | The logits of the mixing matrix are the last slice, viewed as a matrix |
| MhcPre.TokenAfterGemm | vllm/_tilelang_ops.py:93-188 | One token of it, its row written and no other, from what the GEMM kernel leaves in its output arrays |
| MhcPre.HeadIsPipeline | vllm/_tilelang_ops.py:718-808 | The layer input so computed is the head kernel's when weights, scale, base and eps agree |
| BuildSweep.SummarizeEntries | tools/report_build_time_ninja.py:198-256 | IndexError exactly for no entries, KeyError exactly if a step ends before it starts; otherwise weighted times between 0 and the durations that add up to the time something ran, and the length is the largest distance from a start to an end |
| BuildSweep.Sweep | tools/report_build_time_ninja.py:236-256 | The sweep fails exactly if a step ends before it starts, else leaves none running and gives each its weighted time |
| BuildSweep.Extent | tools/report_build_time_ninja.py:209-221 | Earliest start, latest end and total duration |
| BuildSweep.WeightedWithinDuration | tools/report_build_time_ninja.py:74-89 | A weighted time is between 0 and the duration |
| BuildSweep.WeightedTimeConserved | tools/report_build_time_ninja.py:236-255 | The weighted times add up to exactly the busy time |
| BuildSweep.BusyWithinElapsed | tools/report_build_time_ninja.py:258-264 | Busy time is at most elapsed time |
| Chunking.ChunkSizeFits | csrc/cumem_allocator.cpp:24-42 | A setting is used exactly if it is a positive number of megabytes that fits in 64 bits |
| Chunking.AlignUpExact | csrc/cumem_allocator.cpp:319 | Without overflow rounding up gives the next multiple, and changes nothing exactly if it was one |
| Chunking.AlignedChunkIsZero | csrc/cumem_allocator.cpp:344-348 | The rounded chunk size is zero exactly if the rounding overflows |
| Chunking.LargestSettingDividesByZero | csrc/cumem_allocator.cpp:24-42 | A setting that the guard admits and that does so |
| Chunking.NoChunksIff | csrc/cumem_allocator.cpp:347-348 | No chunk exactly if there is nothing to cover or the rounding of the count overflows |
| Chunking.AdmittedSettingGetsNoChunk | csrc/cumem_allocator.cpp:24-42 | A setting the guard admits, and whose rounding does not overflow, that gives a 4 MB request no chunk |
| Chunking.Overflows | csrc/cumem_allocator.cpp:319-348 | What each of the three overflows leads to: a zero size, a zero chunk size, no chunk |
| Chunking.ChunkSizes | csrc/cumem_allocator.cpp:344-369 | For every size, granularity and chunk size below 2^64: division by zero exactly if rounding the chunk size overflows; a table covers the size exactly if none of the three sums overflows, and then its chunks are positive multiples of the granularity, all but the last equal, whose running sums tile the aligned range; otherwise it is empty |
| GpuDriver.UnmapAllExact | csrc/cumem_allocator.cpp:219-226 | Every unmap is attempted: a chunk stays mapped exactly if its own call fails, and each status is the driver's |
| GpuDriver.ReleaseAllExact | csrc/cumem_allocator.cpp:228-233 | The same for handles |
| GpuDriver.FirstErrorIsFirst | csrc/cumem_allocator.cpp:216-237 | The status kept is the first one that is not OK |
| GpuDriver.TeardownQuiet | csrc/cumem_allocator.cpp:216-237 | A teardown that reports no error is one in which no call failed |
| CumemAllocator.Allocator.constructor | vllm/device_allocator/cumem.py:130-138 | A new allocator, with nothing reserved and an empty table, meets the invariant |
| CumemAllocator.Allocator.CreateHandles | csrc/cumem_allocator.cpp:150-159 | One fresh handle per chunk, or none if the failing call is followed by no further failure; with an error left over, one handle is created and lost |
| CumemAllocator.Allocator.MapChunks | csrc/cumem_allocator.cpp:160-181 | All chunks mapped at their offsets, or mappings and handles as before |
| CumemAllocator.Allocator.CreateAndMap | csrc/cumem_allocator.cpp:95-193 | The four ways it ends, what the driver holds after each, and that it succeeds whenever the range is free and no call fails |
| CumemAllocator.Allocator.UnmapAndRelease | csrc/cumem_allocator.cpp:195-239 | All calls are made in order whatever they report, and the first bad status becomes the error code |
| CumemAllocator.Allocator.PackChunks | csrc/cumem_allocator.cpp:265-293 | The Python list holds cell and size of every chunk in order |
| CumemAllocator.Allocator.UnpackChunks | csrc/cumem_allocator.cpp:499-506 | Copying the list back gives the same cells and sizes |
| CumemAllocator.Allocator.EnterAndMap | csrc/cumem_allocator.cpp:350-427 | The table entry is made before the chunks, under the current tag; if they fail the driver is as before but the entry stays, with its cells freed |
| CumemAllocator.Allocator.MyMalloc | csrc/cumem_allocator.cpp:299-427 | A new allocation, filed under the current tag, whose chunks tile the rounded size and that keeps the invariant; null and no change while an error is left over; with no failing call, a request that fits gets null exactly for lack of host memory, the reservation staying behind and the invariant kept, and one that does not fit gets null, a division by zero or an address without chunks, depending on which sum overflows |
| CumemAllocator.Allocator.MyFree | csrc/cumem_allocator.cpp:430-538 | Nothing of the allocation remains mapped or live; its range is given back, and no error left, exactly if the size was the rounded one and it was awake |
| CumemAllocator.Allocator.PythonUnmapAndRelease | csrc/cumem_allocator.cpp:566-662 | Keeps the invariant, succeeds exactly if the allocation was awake, and clears the error |
| CumemAllocator.Allocator.PythonCreateAndMap | csrc/cumem_allocator.cpp:664-729 | Succeeds exactly if the allocation slept; waking one that is awake leaves its cells with dead handles |
| CumemAllocator.Allocator.Sleep | vllm/device_allocator/cumem.py:177-225 | Everything unmapped and the contents of the offloaded tags saved, by default of the default tag, exactly if everything was awake |
| CumemAllocator.Allocator.WakeUp | vllm/device_allocator/cumem.py:227-250 | The chosen allocations are mapped again with their saved contents, exactly if none was awake |
| CumemAllocator.Allocator.SleepAndWakeUp | vllm/device_allocator/cumem.py:177-250 | If no driver call fails it succeeds, and whenever it succeeds every allocation is awake again with the contents of the offloaded ones |
| CumemAllocator.Allocator.Run | csrc/cumem_allocator.cpp:299-729 | Over every sequence of malloc, store, sleep, wake-up, free and memory pools, as far as each operation succeeds: after each one the invariant holds, every byte of every allocation is mapped exactly if it is awake, and nothing of a freed one is mapped or live |
| CumemAllocator.Allocator.Do | csrc/cumem_allocator.cpp:299-729 | One operation of such a sequence: what it makes of table, tags, contents and copies, and what success says about the state before |
| CumemAllocator.Allocator.EnterPool | vllm/device_allocator/cumem.py:261-278 | From here on the tag is the pool's, or the default; the tag before is kept |
| CumemAllocator.Allocator.LeavePool | vllm/device_allocator/cumem.py:305-306 | The tag from before is put back |
| AllocatorRuns.ContentsComeBack | vllm/device_allocator/cumem.py:177-250 | Over every run: an allocation made under a tag, put to sleep when that tag is offloaded and later woken has the contents it had, whatever happens in between |
| AllocatorRuns.ContentsStay | vllm/device_allocator/cumem.py:177-250 | Nothing but a store to it, a sleep or a free changes what an allocation contains |
| AllocatorRuns.TableIsMade | vllm/device_allocator/cumem.py:140-161 | From an empty table on, the entries are those made and not freed, each under the tag current when it was made |
| AllocatorRuns.ChosenByTag | vllm/device_allocator/cumem.py:237-238 | wake_up takes exactly the allocations made and not freed under the tags it is given |
| AllocatorRuns.PoolRestoresTag | vllm/device_allocator/cumem.py:252-306 | Leaving a memory pool puts back the tag from before, however many pools were used inside |
| PoolState.RangeAllOrNothing | csrc/cumem_allocator.cpp:160-181 | Between calls every byte of an allocation is mapped if it is awake and none is if it sleeps |
| PoolState.SleepKeepsSound | csrc/cumem_allocator.cpp:195-239 | Putting an allocation to sleep keeps the invariant of driver, cells and table |
| PoolState.WakeKeepsSound | csrc/cumem_allocator.cpp:150-181 | So does waking one, or making one |
| PoolState.ReserveKeepsSound | csrc/cumem_allocator.cpp:321-333 | So does a reservation alone, which is what a malloc without host memory leaves |
| PoolState.MallocKeepsSound | csrc/cumem_allocator.cpp:327-409 | A new reservation, new cells and new chunks together keep it |
| PoolState.DropKeepsSound | csrc/cumem_allocator.cpp:526-537 | So does dropping a sleeping allocation, with or without its range |
| PoolState.UnmapAsleep | csrc/cumem_allocator.cpp:216-237 | Of a sleeping allocation nothing is left to unmap or release, so doing it changes nothing and reports an error |
| Spinloop.SafeIff | csrc/spinloop.cpp:93-152 | Over all interleavings with writers and clock, no callback and no run loses a wakeup exactly if the waiter polls or the buffer lies in one monitor line |
| Spinloop.WakeAlong | csrc/spinloop.cpp:126-152 | A sleeping waiter has been woken or its condition is false, at every point of every run |
| Spinloop.RecheckIsNeeded | csrc/spinloop.cpp:131-143 | Without the check after arming a wakeup can be lost |
| Spinloop.ResultAlong | csrc/spinloop.cpp:93-124 | At every point of every run: it has returned true exactly if its last callback said true, a callback that raises ends it raising, it says false only if time is up, and it raises only if the last callback or a clock reading did |
| Spinloop.TrueIsReturned | csrc/spinloop.cpp:93-152 | Once the condition holds and goes on holding the waiter returns true within three of its steps, unless it was about to look at the clock |
| Spinloop.ResultStep | csrc/spinloop.cpp:93-152 | One step: what is remembered of a callback is what it says then, and after leaving nothing happens |
| Spinloop.LeavesInTime | csrc/spinloop.cpp:107-124 | Once time is up at most 16 more passes and 99 steps, from any counter value and across its wrap-around |
| Spinloop.NeverStuck | csrc/spinloop.cpp:93-181 | The waiter can go on exactly until it has left |
| Spinloop.ElapsedIsDifference | csrc/spinloop.cpp:117-118 | Seconds and nanoseconds subtracted apart give the elapsed time |
| OffloadManager.Manager.PrepareStore | vllm/v1/kv_offload/cpu/manager.py:157-212 | Stores all missing keys as the most recent and spares what is in use or asked for, evicting as many of the least recently used as needed, or changes nothing, exactly if too few blocks are free or idle; the pool stays whole exactly if no missing key is repeated |
| OffloadManager.Manager.Evict | vllm/v1/kv_offload/cpu/policies/lru.py:34-49 | n blocks that are unused and not protected, none that stays being older than one of them; nothing exactly if there are fewer |
| OffloadManager.Manager.Touch | vllm/v1/kv_offload/cpu/policies/lru.py:26-29 | Touched keys become more recent than all others, the first given the most recent, and the others keep their order |
| OffloadManager.Manager.Allocate | vllm/v1/kv_offload/cpu/manager.py:69-83 | Distinct ids taken out of the pool, none of them in use |
| OffloadManager.StoreKeepsPool | vllm/v1/kv_offload/cpu/manager.py:195-202 | Every id stays in exactly one place exactly if the keys are distinct |
| OffloadManager.EvictKeepsPool | vllm/v1/kv_offload/cpu/manager.py:176-187 | Evicted ids go back to the pool |
| OffloadManager.Manager.Retain | vllm/v1/kv_offload/cpu/manager.py:130-138 | One more use of exactly the ready keys |
| OffloadManager.Manager.Release | vllm/v1/kv_offload/cpu/manager.py:140-146 | One use less of each key, or nothing if a key has none |
| OffloadManager.Manager.PrepareLoad | vllm/v1/kv_offload/cpu/manager.py:113-125 | One more use per occurrence, up to the first key that is missing or not ready |
| OffloadManager.Manager.CompleteLoad | vllm/v1/kv_offload/cpu/manager.py:148-155 | One use less per occurrence, up to the first key without one |
| OffloadManager.Manager.CompleteStore | vllm/v1/kv_offload/cpu/manager.py:214-234 | Exactly the blocks being written become readable, or go back to the pool |
| Lifecycles.Registry.Release | vllm/tokencake/lifecycle.py:240-246 | A lifecycle gives up exactly what it retains, and the manager's assertion holds |
| Lifecycles.Registry.Terminalize | vllm/tokencake/lifecycle.py:248-257 | The first end wins and leaves nothing retained |
| Lifecycles.Registry.Expire | vllm/tokencake/lifecycle.py:259-274 | Every lifecycle is aged by its own deadlines, giving up through the manager what it loses; afterwards none is overdue, none retains past its deadline, and only ended ones are forgotten |
| Lifecycles.Registry.Associate | vllm/tokencake/lifecycle.py:113-123 | A lifecycle is taken on exactly if neither a record nor a running generation has it |
| Lifecycles.Registry.GenerationFinished | vllm/tokencake/lifecycle.py:125-143 | A completed generation leaves its lifecycle, with what it retains, awaiting the stall; any other end gives everything up; others only age |
| Lifecycles.Registry.Apply | vllm/tokencake/lifecycle.py:179-217 | Which events apply, repeat, conflict, come late or are unknown, after aging, and what they change: an applied start has a safety deadline 60 to 3600 seconds ahead, an applied finish ends ownership and leaves nothing retained |
| Lifecycles.EventsAdvance | vllm/tokencake/lifecycle.py:179-217 | For every record, event and time: a stall starts once and ends only if it started, its deadlines follow from its start, its expected duration and the lead time, and repeating an event changes nothing |
| Lifecycles.NewCanOwn | vllm/tokencake/lifecycle.py:87-93 | A lifecycle just taken on owns once its stall starts exactly if the stall should outlast the lead time |
| Lifecycles.OnceGivenUp | vllm/tokencake/lifecycle.py:87-93 | Over every run of the registry: if a lifecycle had given up ownership and owns again later, then in between its record had ended and its id was taken on anew |
| Lifecycles.Registry.SetH2dEstimate | vllm/tokencake/lifecycle.py:219-227 | The release deadline leaves the lead time and time and a quarter for loading before the expected end, and no more; past it the lifecycle gives everything up, before it nothing |
| Lifecycles.Registry.RetainReady | vllm/tokencake/lifecycle.py:229-238 | Only an owner retains blocks, and then every readable one it asks for, each of which then has a use |
| Lifecycles.Registry.ExternalReset | vllm/tokencake/lifecycle.py:281-286 | After a reset every lifecycle has ended and no count is left over |
| Lifecycles.Registry.BeginLoad | vllm/v1/kv_offload/cpu/manager.py:113-125 | Loads begin, up to the first key that is missing or not ready; counts stay one per retaining lifecycle and one per load under way |
| Lifecycles.Registry.EndLoad | vllm/v1/kv_offload/cpu/manager.py:148-155 | Ending loads that are under way never meets the manager's assertion and keeps the counts |
| Lifecycles.Registry.BeginStore | vllm/v1/kv_offload/cpu/manager.py:157-212 | A store of distinct missing keys keeps the counts, evicting nothing retained or being loaded |
| Lifecycles.Registry.EndStore | vllm/v1/kv_offload/cpu/manager.py:214-234 | So does its end, successful or not |
| Lifecycles.Registry.NoLeak | vllm/tokencake/lifecycle.py:240-257 | In every state so reached, with no owner and no load under way every readable block has a count of zero and can be evicted |
| Lifecycles.Registry.Run | vllm/tokencake/lifecycle.py:96-286 | Over every sequence of registry operations, loads and stores at any times: every use count is one per retaining lifecycle and one per load under way at every point, records only advance or are forgotten once ended, and each step does what its operation says |
| Lifecycles.Registry.Do | vllm/tokencake/lifecycle.py:96-286 | One such step |
| Lifecycles.ReleaseBalances | vllm/tokencake/lifecycle.py:240-246 | Every use count is one per retaining lifecycle and one per load: kept by releasing |
| Lifecycles.RetainBalances | vllm/tokencake/lifecycle.py:235-238 | Kept by retaining |
| Lifecycles.LoadBalances | vllm/v1/kv_offload/cpu/manager.py:113-125 | Kept when loads begin |
| Lifecycles.UnloadBalances | vllm/v1/kv_offload/cpu/manager.py:148-155 | Kept when loads under way end, none of which finds a count of zero |
| Lifecycles.StoreBalances | vllm/v1/kv_offload/cpu/manager.py:176-202 | Kept by stores, which evict nothing retained or being loaded |
| Lifecycles.ReadableBalances | vllm/v1/kv_offload/cpu/manager.py:222-227 | Kept when stores succeed |
| Lifecycles.GivenBackBalances | vllm/v1/kv_offload/cpu/manager.py:228-234 | Kept when stores fail |
| Lifecycles.NobodyHolds | vllm/tokencake/lifecycle.py:240-257 | With no owner and no load every readable block can be evicted |
| Capacity.PartitionCapacity | vllm/tokencake/scheduling.py:115-141 | The critical types are the highest ranked, as many as the ratio gives but one at least; reservations and shared capacity add up to the total, by the ratio; each type gets what it is owed to less than a block, and more weight never less |
| Capacity.Apportion | vllm/tokencake/scheduling.py:133-140 | Largest remainders: exact sum, shares rounded down or up, order kept |
| Capacity.FractionsLast | vllm/tokencake/scheduling.py:135-140 | The remainder reaches only types whose share is not whole |
| Capacity.WeightGrows | vllm/tokencake/scheduling.py:128-131 | More score and no less memory weigh more, unless at the floor |
| Capacity.WeightIsLargest | vllm/tokencake/scheduling.py:128-131 | A weight is the largest of the share of the scores, its mean with the share of the memory, and the floor |
| Capacity.OwedIsProportional | vllm/tokencake/scheduling.py:132-133 | What types are owed is in proportion to their weights and adds up to what is reserved |
| Admission.Controller.UpdateAvailable | vllm/tokencake/scheduling.py:493-511 | What is on offer is the unused plan cut to the uncommitted blocks, shared first and then lowest scores first |
| Admission.Limit | vllm/tokencake/scheduling.py:499-511 | The cut itself, with its exact total |
| Admission.Controller.Consumption | vllm/tokencake/scheduling.py:533-573 | A request is paid for exactly if shared capacity, its own reservation and those lent to it suffice; nothing is paid twice or beyond what is open, shared capacity and its own reservation being used up first; then those who lend, the largest reservation first, and of types with requests waiting only those outscored by the margin |
| Admission.Borrow | vllm/tokencake/scheduling.py:555-572 | The donors pay as far as they lend, in their order, until the demand is met |
| Admission.LendingGrows | vllm/tokencake/scheduling.py:556-565 | A higher score finds at least the lenders of a lower one; borrowing and owners with nobody waiting are not asked for a margin |
| Admission.Controller.Commit | vllm/tokencake/scheduling.py:678-725 | New blocks are each charged once to those who pay, the counters stay those of the charges, and no commit overdraws a reservation |
| Admission.Controller.Release | vllm/tokencake/scheduling.py:481-491 | Exactly the blocks still referred to keep their charge, and the counters are recounted |
| ExecutedRanges.Progress.Executed | vllm/tokencake/scheduling.py:857-871 | The ranges hold exactly the positions executed so far, the recomputed count grows by those already held, and executed minus recomputed is always the number held |
| ExecutedRanges.Merge | vllm/tokencake/scheduling.py:865-871 | Merging keeps the positions and separates the ranges |
| ExecutedRanges.RepeatedIsSeen | vllm/tokencake/scheduling.py:862 | The sum of overlaps counts each repeated position once |
| ExecutedRanges.NewOrRepeated | vllm/tokencake/scheduling.py:857-871 | What a call executes is either new in the ranges or counted as recomputed |
| Quantiser.RowWithinHalf | vllm/_xpu_ops.py:397-401 | Every element comes back within half a scale step exactly if the extremes are within half a step of the quantised range, for any scale and zero point |
| Quantiser.ScaleIsTight | vllm/_xpu_ops.py:388-394 | Unless the scale is at its floor the extremes of the row span the whole quantised range |
| Quantiser.RangeIsFull | vllm/_xpu_ops.py:384-385 | The quantised range has 2^bits values, from zero on or half of them negative |
| Quantiser.SymmetricWithinHalf | vllm/_xpu_ops.py:384-401 | Symmetric mode is within half a step and never saturates |
| Quantiser.AsymmetricWithinHalf | vllm/_xpu_ops.py:384-401 | With the zero point as a whole number of any size, asymmetric mode is within half a step despite the clamp |
| Quantiser.AsymmetricComesBackIff | vllm/_xpu_ops.py:384-401 | As stored, with a 32-bit zero point and a byte per element: whatever an out-of-range conversion gives, every element of the row comes back within half a step exactly if the zero point is strictly between -2^31 and 2^31, the negation wrapping at -2^31 |
| Quantiser.FarZeroPointFails | vllm/_xpu_ops.py:395-401 | A zero point off by two or more below, or past the range above, loses some element |
| Quantiser.ComesBackIff | vllm/_xpu_ops.py:397-401 | For any zero point the stored bytes come back within half a step exactly if the extremes are within half a step of the range |
| Quantiser.SymmetricComesBack | vllm/_xpu_ops.py:384-401 | Symmetric mode to at most 8 bits always does |
| Quantiser.MoreBitsLose | vllm/_xpu_ops.py:401 | With more than 8 bits some row does not, in either mode |
| Quantiser.ConstantRowOverflows | vllm/_xpu_ops.py:394-395 | A row whose zero point is out of 32 bits, and a conversion that loses it |
| Quantiser.StoreKeepsIff | vllm/_xpu_ops.py:401 | The 8-bit store keeps every quantised value exactly if there are at most 8 bits |
| Quantiser.LargestOccurs | vllm/_xpu_ops.py:397-401 | The largest quantised value does occur |
| SpTokens.CuTokens | vllm/forward_context.py:120-125 | The cumulative counts are the running sum of the per-rank counts; the entry closing rank r is sp times the rounded counts through r; the last exceeds the total by at most dp * (sp - 1) |
| EnvsCache.ReadsSnapshot | vllm/envs.py:2006-2025 | Between enable and disable every read gives the setting as it was when enabled, whatever happens to the environment and however often it is enabled again: a variable that was set, a default generated then, or what a getter computes from the environment of then with the defaults listed before it |
| EnvsCache.SnapshotOfSet | vllm/envs.py:2019-2025 | If every defaulted variable was set, the snapshot is the settings of the environment as it was |
| EnvsCache.DisableIsLive | vllm/envs.py:2028-2037 | After disabling, reads are live again |
| EnvsCache.VariableStays | vllm/envs.py:515-533 | Reads and enabling never change a variable that is set |
| EnvsCache.DefaultIsStable | vllm/envs.py:515-533 | A generated default is given again until its variable is set or unset |
| EnvsCache.Envs.GetAttr | vllm/envs.py:1988-1998 | A cached name gives its snapshot and changes nothing; AttributeError exactly for an unlisted name; otherwise a computed setting is that of the environment, a defaulted one ends up in it, at most its own variable being written, and the value is cached if there is a cache |
| EnvsCache.Envs.EnableEnvsCache | vllm/envs.py:2006-2025 | Enabling keeps every variable that is set, gives each one defaulted and not set what the first factory for it gives, and caches for every setting the variable it defaults or what it computes with the defaults listed before; it does nothing if enabled |

## Left out

- PartitionSignatures.PartitionSignature: the sets carry no order, symbol inputs are not computed, and mutation renaming is taken to lead to a real name in one step.
- MhcFused.MhcFused: bf16 and fp32 rounding, pipelining and dependent launches; so for all kernels.
- BuildSweep.SummarizeEntries: printing, grouping by extension, and reading the log.
- CumemAllocator.Allocator.CreateAndMap: the CUDA path with one chunk, which adds no case.
- CumemAllocator.Allocator.MyMalloc: when a sum overflows, what the entry without chunks does to later calls is not followed up.
- CumemAllocator.Allocator.LeavePool: on leaving, the source also releases pool segments that are unused; that is not modelled, nor are expandable segments.
- CumemAllocator.Allocator.Run: mallocs in which a sum overflows are shut out, because the entry they make is not one the invariant describes.
- MhcPre.MhcPreTilelang: the DeepGEMM path and the choice between the GEMM kernels; `PrenormBlockM.HcPrenormGemmBlockM` gives the same results.
- Lifecycles.Registry.BeginStore: a store whose missing keys repeat loses a block, as `OffloadManager.StoreKeepsPool` says, and then nothing is promised.
- CumemAllocator.Allocator.MyFree: an entry left over from a failed malloc has freed cells, and freeing it reads freed memory; such an entry is shut out.
- CumemAllocator.Allocator.PythonUnmapAndRelease: the argument is a tuple of the form that my_malloc builds; type errors for other arguments are not modelled.
- CumemAllocator.Allocator.Sleep: the order of the table is left open.
- Spinloop.SafeIff: the loop is a transition system; a callback, a store and a clock reading are one step each, and the monitored line has the reported largest size.
- OffloadManager.Manager.PrepareStore: the filter by lookup counts, the events and the ARC policy.
- OffloadManager.Manager.Retain: counts are not limited to 32 bits.
- Lifecycles.Registry.Apply: the predicted duration is a parameter; learning it from history is not modelled, nor are metrics and snapshots, and the clock stands still during a call.
- Admission.Controller.Commit: the intermediate decrements that the final update overwrites, growth commitments, metrics and history.
- Admission.Controller.UpdateAvailable: the number of uncommitted blocks is a parameter.
- Capacity.PartitionCapacity: scores are positive and ratios between 0 and 1, as their definitions guarantee; sums are exact.
- Quantiser.SymmetricWithinHalf: the cast of the scale to the input type, and one-bit symmetric mode, which divides by zero.
- EnvsCache.Envs.EnableEnvsCache: getters that raise.
- `sp_local_sizes` and `override_forward_context`: saving and restoring one variable.
- The offload benefit score, request ordering, victim selection and progress headroom of the TokenCake scheduler.
- The rest of vLLM: model code, networking, benchmarks, configuration and the other kernels.
