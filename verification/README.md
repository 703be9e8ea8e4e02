# Verification model of the GITS DirectX player

A Dafny model of the parts of the player, the launcher and the code generator that carry state,
concurrency or delicate arithmetic, with proofs of what they promise. `dafny verify dfyconfig.toml` checks it.

## What is modelled

**Asynchronous object creation.** `CreationService` is the shared state of the creation service, one
method for each critical section. `AsyncReplay` is the whole replay as a transition system: a main thread
(the handlers of the await and creation layers) and any number of workers, one step a critical section, one
creation functor, or one main-thread action no worker observes. A schedule is any sequence of enabled
steps. `ReplayCommands` is the recorded stream and plain synchronous replay of it. The results hold for
every recorded stream, every set of failing creations, every number of workers and every schedule.

**Patch-buffer pools.** `BufferPool` is the bookkeeping of one fenced pool; the layer repeats it for patch
buffers, mapping buffers and the two pools for arrays of instance pointers. `PoolSafety` puts the four pools
together with command lists, queues and a GPU that drains each queue in order at any moment, also between
the signals the CPU enqueues after a submission. Initial pool sizes and the initial buffer size are
parameters: the code passes the pool-size constant as a byte size
(DirectX/player/gpuPatchLayer.cpp:755), and the model follows it in allowing any value.

**Address translation.** `AddressMapping` is the search all kernels share, `SortedSearch` the tables it is
right for; `Interleaving` runs compute-shader threads as arbitrary interleavings of single loads and stores
and shows that threads which keep to disjoint parts of a buffer leave what each would leave alone. On it
rest the binding-table kernel (`BindingTable`, `BindingTableThreads`), the argument-buffer kernel
(`ArgumentKernel`, `ArgumentKernelThreads`), and the instance kernels with the CPU code for arrays of
pointers (`InstanceKernel`, `InstancePointers`, `InstanceTheorems`). `ArgumentLayout` compares the computed
patch offsets with the structures the dump reads; `DispatchRays` compares the patching walk with the size
computed in advance. Machine widths are explicit: 64-bit sums wrap, 32-bit offsets are cut.

**Small protocols and shadows.** `SequentialExecutor` is the condition-variable handshake as a transition
system with an explicit mutex owner and spurious wake-ups. `CommandListShadow` compares the replayed shadow
of a command list with the list as the graphics API defines it.

**Pure-data transforms.** `YamlDelta` and `YamlDeltaTheorems` (the launcher's configuration delta), `SalCodec`,
`SalTheorems` and `SalParameter` (annotation escaping), `CommandIds` and `CommandOrder` (stable command numbers
and the order they are given in).

## What is assumed

- Keys of created objects are fresh, only live objects are used, and a recorded Release carries the count it
  returned (`ReplayCommands.CanFollow`). A functor's outcome depends on its key only, and a new object has count 1.
- Only the main thread schedules, completes, records dependencies and collects consumers, as in the code.
- A recording is executed at most once and a list is recorded again only after a reset; the growth multiplier
  gives at least the requested size. `ReexecutionUnprotected` shows why the first is needed, and
  `SubmissionCoveredExactly` says exactly when a submission is protected without it.
- Mapping tables are sorted by capture start, disjoint and without 64-bit overflow, identifier tables sorted
  (`AddressMapping.Ordered`, `OrderedIdentifiers`). `SearchedExactly` says which tables sorted by start alone are
  searched correctly, `NestedIntervalsMissed` shows one that is not.
- Shader records are at least 32 bytes, and tables and argument buffers fit 32-bit offsets; byte offsets of
  indirect arguments are multiples of 4, of instance descriptors multiples of 8.
- YAML maps have unique keys.

Where a promise does not hold unconditionally, the exact condition is proved in both directions: instance
pointers (`ArriveExactlyWhenCongruent`), the dispatch-rays walk (`WalkReachesSize`), the dispatch size
(`DispatchCovers`), the command-list shadow (`RestoreGivesBack`), the YAML delta (`DeltaRebuilds`,
`DeltaEmptyExactly`), annotations (`RoundTripExactly`), command numbers (`BlockExactly`, `CollideExactly`). Lemmas
with concrete failing inputs stand beside the ones whose condition is easy to miss.

## Model

| member | source | states |
|---|---|---|
| ReplayCommands.SyncHoldsRecordedCounts | DirectX/player/multithreadedObjectAwaitLayer.cpp:81-123 | on a recorded stream synchronous replay holds, for every object whose creation succeeds, exactly the reference count the recorded application held |
| CreationService.WithoutIsRemoval | DirectX/player/multithreadedObjectCreationService.cpp:113-114 | erase-remove on the queue takes out exactly the given task and keeps the rest without duplicates |
| CreationService.MultithreadedObjectCreationService.Schedule | DirectX/player/multithreadedObjectCreationService.cpp:55-74 | a new key is registered and queued last; a known key changes nothing |
| CreationService.MultithreadedObjectCreationService.AddDependency | DirectX/player/multithreadedObjectCreationService.cpp:76-83 | a consumer is appended to its provider's list; null keys are ignored |
| CreationService.MultithreadedObjectCreationService.AddDependencies | DirectX/player/multithreadedObjectCreationLayer.cpp:47-62 | all providers of a creation get it as consumer, in order |
| CreationService.MultithreadedObjectCreationService.CollectConsumers | DirectX/player/multithreadedObjectCreationService.cpp:85-94 | returns the recorded consumers and forgets them |
| CreationService.MultithreadedObjectCreationService.ScheduleUpdateRefCount | DirectX/player/multithreadedObjectCreationService.cpp:132-148 | true exactly for a registered task no worker has started, whose deferred total then changes by the given amount; otherwise nothing changes |
| CreationService.MultithreadedObjectCreationService.PopTask | DirectX/player/multithreadedObjectCreationService.cpp:155-166 | a worker takes the front of the queue and marks it started |
| CreationService.MultithreadedObjectCreationService.DetachTask | DirectX/player/multithreadedObjectCreationService.cpp:98-118 | Complete takes the task out of the registry, and out of the queue if no worker has it; says which way the result is obtained |
| CreationService.MultithreadedObjectCreationService.ApplyDeferred | DirectX/player/multithreadedObjectCreationService.cpp:180-198 | the deferred total is forgotten and applied to the new object, whose count becomes 1 plus the total, or 0 for a negative one |
| AsyncReplayTheorems.SchedulesKeep | DirectX/player/multithreadedObjectCreationService.cpp:55-201 | every schedule of main-thread and worker steps keeps the invariant of the replay: queue exact, workers exact, places disjoint, counts accounted for, providers alive |
| AsyncReplayTheorems.ReplayMatchesSynchronousReplay | DirectX/player/multithreadedObjectAwaitLayer.cpp:27-43 | for every stream and interleaving: a materialised object has the count of synchronous replay, a pending one will get it, one finished early carries it, and every object of synchronous replay is materialised or obtainable |
| AsyncReplayTheorems.CommandsFindTheirObjects | DirectX/player/multithreadedObjectAwaitLayer.cpp:27-43 | whatever the schedule, a command that is not deferred runs with its object materialised, carrying the count of synchronous replay, exactly when synchronous replay has the object |
| AsyncReplayTheorems.CreationsAreScheduled | DirectX/player/multithreadedObjectCreationLayer.cpp:47-106 | the command of an asynchronous creation is finished at once: its key is queued last and every provider knows it as consumer |
| AsyncReplayTheorems.PendingUpdatesAreDeferred | DirectX/player/multithreadedObjectAwaitLayer.cpp:81-123 | a count update of an object nobody has started to create is finished at once by changing the deferred total by one |
| AsyncReplayTheorems.FlushMaterialisesEverything | DirectX/player/multithreadedObjectAwaitLayer.cpp:70-79 | whatever step finishes a StateRestoreEnd, nothing is registered any more and the object table is that of synchronous replay, except results finished early and not yet asked for |
| AsyncReplayTheorems.TasksRunOnceAndStayAlive | DirectX/player/multithreadedObjectCreationService.cpp:97-118 | at every reachable state the queue holds, without duplicates, exactly the unstarted tasks; functors run at most once; no thread creating an object holds a task that was destroyed, and no two hold the same |
| AsyncReplayTheorems.CompleteReturnsOneRun | DirectX/player/multithreadedObjectCreationService.cpp:109-117 | when Complete returns, its functor has run exactly once and no worker has the task any more |
| AsyncReplayTheorems.DeferredTotalsNeverNegative | DirectX/player/multithreadedObjectCreationService.cpp:180-195 | the total a thread takes is never negative, so the assertion on -1 is never reached, and applying it gives the count of synchronous replay |
| AsyncReplayTheorems.ProvidersOutliveCreations | DirectX/player/multithreadedObjectAwaitLayer.cpp:94-112 | when a creation functor is about to run, no provider its command names has had its release to zero finished; unless its own creation failed it is in the object table or can be obtained |
| AsyncReplayProgress.SomeStepEnabled | DirectX/player/multithreadedObjectCreationService.cpp:150-170 | unless the stream is finished, some thread can move |
| AsyncReplayProgress.StepLowers | DirectX/player/multithreadedObjectCreationService.cpp:97-170 | every step lowers a well-founded measure |
| AsyncReplayProgress.EveryScheduleFinishes | DirectX/player/multithreadedObjectCreationService.cpp:120-130 | under every scheduler that never idles the replay of any recorded stream finishes |
| AsyncReplayProgress.CompleteAllReturnsEachKeyOnce | DirectX/player/multithreadedObjectCreationService.cpp:120-130 | CompleteAll returns every key registered at its start exactly once, whatever the workers do meanwhile |
| BufferPool.FencedPool.constructor | DirectX/player/gpuPatchLayer.cpp:749-759 | a pool starts with the given number of free buffers of the given size and no owners |
| BufferPool.FencedPool.Assign | DirectX/player/gpuPatchLayer.cpp:1805-1807 | the buffer is appended to the list's ownership entry and waits for its execution |
| BufferPool.FencedPool.GetBestFit | DirectX/player/gpuPatchLayer.cpp:1758-1808 | the one-pass scan, replacement or growth, and assignment give the pool and index of the specification |
| BufferPool.FencedPool.FindFree | DirectX/player/gpuPatchLayer.cpp:1810-1829 | finds the first buffer that neither waits nor is in flight, or none |
| BufferPool.FencedPool.GetPerList | DirectX/player/gpuPatchLayer.cpp:1727-1756 | a list keeps its mapping buffer; otherwise the first free or a new one is taken |
| BufferPool.FencedPool.GetFixed | DirectX/player/gpuPatchLayer.cpp:1810-1850 | takes the first free buffer of a pool that cannot grow, and reports exhaustion without changing anything |
| BufferPool.FencedPool.Submit | DirectX/player/gpuPatchLayer.cpp:1169-1221 | every buffer the list owns has one more signal to wait for, no longer waits for execution, and the entry is gone |
| BufferPool.FencedPool.Drop | DirectX/player/gpuPatchLayer.cpp:54-95 | buffers of a released list no longer wait, their fences unchanged, and the entry is gone |
| BufferPool.SmallestFittingIsBest | DirectX/player/gpuPatchLayer.cpp:1763-1784 | the scan finds the first free buffer of least sufficient size, and none only if no free buffer fits |
| BufferPool.LargestNotFittingIsBest | DirectX/player/gpuPatchLayer.cpp:1785-1790 | the scan finds the first free buffer of greatest insufficient size, if there is one |
| BufferPool.BestFitChoice | DirectX/player/gpuPatchLayer.cpp:1758-1808 | the buffer returned was free or is new and is large enough; no free buffer fits better; if none fits, the first of the largest free ones is replaced by one of the grown size, and only if none is free is one of the grown size added; no other buffer changes and none shrinks |
| BufferPool.PerListChoice | DirectX/player/gpuPatchLayer.cpp:1727-1756 | a list that owns a mapping buffer gets its first one and nothing changes; otherwise the first free one, or a new one if none is free, is handed to it and nothing else changes |
| BufferPool.FixedChoice | DirectX/player/gpuPatchLayer.cpp:1810-1850 | the first free buffer is handed out, and none exactly when none is free |
| BufferPool.SubmittedAndDropped | DirectX/player/gpuPatchLayer.cpp:54-95 | a submission signals exactly the list's buffers, once each, and a drop only stops them waiting; the list's entry goes, other entries stay |
| BufferPool.SignalledAt | DirectX/player/gpuPatchLayer.cpp:1186-1192 | signalling a list of distinct indices raises exactly those fences by one |
| PoolInvariant.AcquireKeeps | DirectX/player/gpuPatchLayer.cpp:1727-1850 | handing a free or new buffer to a list keeps the invariant of the pools and queues |
| PoolInvariant.ExecuteKeeps | DirectX/player/gpuPatchLayer.cpp:1060-1074 | a submission of fresh recordings keeps it: all its buffers have their signals coming |
| PoolInvariant.SubmitKeeps | DirectX/player/gpuPatchLayer.cpp:1169-1221 | enqueuing the signals of one list and pool keeps it |
| PoolInvariant.DropKeeps | DirectX/player/gpuPatchLayer.cpp:54-95 | releasing an unexecuted list keeps it |
| PoolInvariant.SignalPopKeeps | DirectX/player/gpuPatchLayer.cpp:1739-1748 | a fence reaching its last signalled value keeps it |
| PoolInvariant.NextKeeps | DirectX/player/gpuPatchLayer.cpp:1060-1221 | every action of the application, the layer and the GPU keeps it |
| PoolInvariant.RunKeeps | DirectX/player/gpuPatchLayer.cpp:1060-1221 | every run keeps it |
| PoolInvariant.InitSound | DirectX/player/gpuPatchLayer.cpp:749-759 | the initial pools satisfy it for all sizes |
| PoolTheorems.AcquiredBufferIsUnused | DirectX/player/gpuPatchLayer.cpp:1727-1850 | over all runs, the buffer handed out or replaced is used by no unfinished GPU work, has no signal outstanding and belongs to no other recording that can still be executed |
| PoolTheorems.AcquiredBufferIsSubmitted | DirectX/player/gpuPatchLayer.cpp:1060-1221 | over all runs a buffer a list acquired is in the work queued when the list is executed, whatever happens in between, unless the list was reset or released |
| PoolTheorems.SubmittedWork | DirectX/player/gpuPatchLayer.cpp:1060-1221 | the work a submission queues uses exactly the buffers its lists recorded, behind everything queued before |
| PoolTheorems.SubmissionWritesExclusiveBuffers | DirectX/player/gpuPatchLayer.cpp:1064-1155 | the staging writes at submission touch only buffers the submitted lists own, which nothing in flight uses |
| PoolTheorems.OwnershipExact | DirectX/player/gpuPatchLayer.h:178-198 | over all runs WaitingForExecute holds exactly for owned indices, no index has two owners, and each fence is behind by its one outstanding signal or not at all |
| PoolTheorems.DrainedQueuesFree | DirectX/player/gpuPatchLayer.cpp:1169-1221 | once the queues are empty, exactly the unowned buffers are free again |
| PoolTheorems.StepGrowth | DirectX/player/gpuPatchLayer.cpp:839-854 | an action adds a buffer only if all are then busy, and shrinks none |
| PoolTheorems.PoolBoundedByPeak | DirectX/player/gpuPatchLayer.cpp:839-854 | after any run a pool is no larger than its initial size or the peak number of busy buffers, and no buffer is smaller than before |
| PoolTheorems.SubmissionCoveredExactly | DirectX/player/gpuPatchLayer.cpp:1169-1193 | a submission leaves all queued work covered by later signals if and only if every buffer it uses is owned by a submitted list |
| PoolTheorems.ReexecutionUnprotected | DirectX/player/gpuPatchLayer.cpp:1184-1193 | executing a recording again after its ownership entry was erased leaves its free buffers free while the GPU uses them |
| PoolTheorems.ReexecutedBufferHandedOut | DirectX/player/gpuPatchLayer.cpp:1184-1193 | a concrete case in which such a buffer is handed to another list |
| AddressMapping.Search | DirectX/player/raytracingShaderPatchService.cpp:128-147 | the kernels' binary search over intervals computes Probe for every table and address |
| AddressMapping.ProbeFinds | DirectX/player/raytracingShaderPatchService.cpp:128-147 | with starts and ends in order the search finds an interval containing the address exactly when there is one |
| AddressMapping.ProbeIsLinear | DirectX/player/executeIndirectShaderPatchService.cpp:202-224 | on sorted disjoint tables it agrees with linear search for every address |
| AddressMapping.LinearFinds | DirectX/player/raytracingShaderPatchService.cpp:134-139 | the answer is player start plus offset of an interval that contains the address, and nothing when none does |
| AddressMapping.LinearAt | DirectX/player/raytracingShaderPatchService.cpp:134-138 | an address inside interval i is translated by interval i |
| AddressMapping.LinearDecides | DirectX/player/raytracingShaderPatchService.cpp:128-147 | linear lookup finds an answer exactly when some interval holds the address, and it is that interval's player start plus the offset, whichever interval it is |
| SortedSearch.SearchedExactly | DirectX/player/raytracingShaderPatchService.cpp:128-147 | on a table sorted by capture start alone, however its intervals overlap, the search agrees with linear search for every address if the table is clear (at each midpoint, addresses that do not turn left lie in no earlier interval of the range), and only then if intervals that share an address lead to different places |
| SortedSearch.NestedIntervalsMissed | DirectX/common/utils/capturePlayerGpuAddressService.cpp:88-257 | three registered resources, two inside the first: the table listed for them is sorted, and an address of the first is missed |
| AddressMapping.GreaterIsLess | DirectX/player/raytracingShaderPatchService.cpp:395-401 | the kernel's four-word comparison is the lexicographic order the CPU sorts by |
| AddressMapping.SearchIdentifier | DirectX/player/raytracingShaderPatchService.cpp:415-434 | the kernel's identifier search computes ProbeIdentifier |
| AddressMapping.ProbeIdentifierFinds | DirectX/player/raytracingShaderPatchService.cpp:415-434 | in a strictly ordered table it finds an identifier exactly when it is there |
| AddressMapping.ProbeIdentifierIsLinear | DirectX/common/utils/capturePlayerShaderIdentifierService.cpp:50-75 | in the order the CPU sorts by, it agrees with linear search |
| Interleaving.TogetherIsAlone | DirectX/player/raytracingShaderPatchService.cpp:403-410 | under any interleaving threads with disjoint footprints do exactly what each does alone |
| Interleaving.AnyScheduleSameRecords | DirectX/player/raytracingShaderPatchService.cpp:403-410 | a kernel whose thread t stays in record t leaves the same buffer under every complete schedule |
| Interleaving.DispatchCovers | DirectX/player/raytracingShaderPatchService.cpp:309 | the 32-bit rounded-up dispatch has a thread for every element if and only if the count is at most 0xFFFFFFE0, and then fewer than a group to spare |
| BindingTable.LookupWord | DirectX/player/raytracingShaderPatchService.cpp:436-501 | view, then sampler, then GPU address tables; null words are left alone |
| BindingTable.LookupIsPatchedWord | DirectX/player/raytracingShaderPatchService.cpp:436-501 | on sorted tables that is the word-wise specification with linear lookups |
| BindingTable.PatchedWordExactly | DirectX/player/raytracingShaderPatchService.cpp:444-502 | null stays; an address in a view goes where that view goes, else one in a sampler, else one in a GPU address mapping if those are patched, else it stays: stated on the intervals alone |
| BindingTable.PatchedIdentifierExactly | DirectX/player/raytracingShaderPatchService.cpp:410-443 | the four identifier words become the player identifier of the entry with that capture identifier, or stay when there is none |
| BindingTable.PatchIdentifier | DirectX/player/raytracingShaderPatchService.cpp:410-434 | words 0 to 3 of the record are replaced together by the matching identifier, or kept |
| BindingTable.PatchWords | DirectX/player/raytracingShaderPatchService.cpp:436-501 | every further word of the record is translated as specified, nothing else changes |
| BindingTable.PatchRecord | DirectX/player/raytracingShaderPatchService.cpp:403-502 | a thread changes exactly its record, as the pointwise specification says; threads beyond the count change nothing |
| BindingTableThreads.AloneProgress | DirectX/player/raytracingShaderPatchService.cpp:403-502 | after n of its single loads and stores a thread has finished exactly the words it should have |
| BindingTableThreads.AnySchedulePatchesTable | DirectX/player/raytracingShaderPatchService.cpp:304-309 | for any record count and any interleaving of the dispatched threads the table left is the pointwise specification |
| BindingTableThreads.EnoughTurnsPatch | DirectX/player/raytracingShaderPatchService.cpp:403-502 | two steps a word for every thread are enough |
| ArgumentLayout.TableMatchesLayout | DirectX/player/gpuPatchLayer.cpp:1666-1723 | the sizes and address offsets used for each argument type are those of its structure |
| ArgumentLayout.VisitArgument | DirectX/player/gpuPatchLayer.cpp:1666-1723 | one case of the switch appends the address offsets of its argument and advances by its size |
| ArgumentLayout.GetPatchOffsets | DirectX/player/gpuPatchLayer.cpp:1660-1725 | for every signature the offsets are exactly the address fields of its structures, in order |
| ArgumentLayout.OffsetsSpaced | DirectX/player/gpuPatchLayer.cpp:1660-1725 | they increase by at least 8, are 4-byte aligned, and lie inside the command |
| ArgumentLayout.DumpConstants | DirectX/player/executeIndirectDump.cpp:122-129 | root constants are walked one by one |
| ArgumentLayout.DumpOne | DirectX/player/executeIndirectDump.cpp:80-194 | each case of the dump's switch decodes addresses exactly at the address fields of its structure and advances by the structure's size |
| ArgumentLayout.DumpArgument | DirectX/player/executeIndirectDump.cpp:80-194 | the dump of one command decodes addresses exactly at the address fields of its arguments |
| ArgumentLayout.DumpArgumentBuffer | DirectX/player/executeIndirectDump.cpp:70-195 | over all commands the dump decodes addresses exactly at stride times index plus the patched offsets |
| ArgumentKernel.SplitJoin | DirectX/player/executeIndirectShaderPatchService.cpp:186-198 | splitting a 64-bit address into halves and joining them are inverse, the low half being the first word |
| ArgumentKernel.LookupAddress | DirectX/player/executeIndirectShaderPatchService.cpp:191-224 | the first exact shader-table match, else the interval search |
| ArgumentKernel.FirstExactFinds | DirectX/player/executeIndirectShaderPatchService.cpp:191-200 | the exact search fails exactly when no shader table was captured at the address; otherwise it gives the player address of the first that was |
| ArgumentKernel.PatchedAddressExactly | DirectX/player/executeIndirectShaderPatchService.cpp:191-224 | the translation is the player address of the first exact match; without one, the place the interval holding the address leads to; without that, the address itself |
| ArgumentKernel.SignaturePlaced | DirectX/player/gpuPatchLayer.cpp:1660-1725 | the offsets of every signature fit any stride the signature fits |
| ArgumentKernel.PatchAddress | DirectX/player/executeIndirectShaderPatchService.cpp:183-225 | one iteration replaces exactly the two halves of one address by its translation |
| ArgumentKernel.PatchArgument | DirectX/player/executeIndirectShaderPatchService.cpp:174-228 | a thread translates exactly the address fields of its command if it is among the first min(count, max), and changes nothing else |
| ArgumentKernelThreads.SoloProgress | DirectX/player/executeIndirectShaderPatchService.cpp:174-228 | after four single loads and stores for each of j offsets exactly those addresses are patched |
| ArgumentKernelThreads.AnySchedulePatchesBuffer | DirectX/player/executeIndirectShaderPatchService.cpp:66-228 | for every signature, count and interleaving the buffer left has exactly the addresses of the first min(count, max) commands translated, exact matches first, and every other byte unchanged |
| ArgumentKernelThreads.EnoughTurnsPatch | DirectX/player/executeIndirectShaderPatchService.cpp:174-228 | four steps an address for every thread are enough |
| InstanceKernel.PatchInstance | DirectX/player/raytracingShaderPatchService.cpp:240-269 | a thread translates exactly the structure address of its listed descriptor; null stays null |
| InstanceKernel.PatchedBlasExactly | DirectX/player/raytracingShaderPatchService.cpp:240-269 | a non-null address goes where the interval holding it leads, any other stays: stated on the intervals alone |
| InstanceKernel.AnySchedulePatchesInstances | DirectX/player/raytracingShaderPatchService.cpp:176-269 | with distinct descriptors every complete schedule patches each listed one exactly once and nothing else |
| InstanceKernel.OthersUntouched | DirectX/player/raytracingShaderPatchService.cpp:240-269 | even when threads collide, words of no listed descriptor's address stay |
| InstancePointers.GroupPointers | DirectX/player/gpuPatchLayer.cpp:262-290 | the grouping loop computes the groups of the specification, or the first failure: unknown pointer or exhausted pool |
| InstancePointers.GroupedExact | DirectX/player/gpuPatchLayer.cpp:262-290 | every pointer's offset is in its resource's group, the groups hold nothing else, sorted and without repetition, and no two resources share a buffer |
| InstancePointers.GroupingSucceeds | DirectX/player/gpuPatchLayer.cpp:272-284 | grouping succeeds if and only if every pointer is known and there are buffers for all resources |
| InstancePointers.GroupingFailsAtFirst | DirectX/player/gpuPatchLayer.cpp:262-290 | a failure is that of the first pointer that cannot be placed: unknown, or no buffer left for its resource |
| InstanceTheorems.RelocatePointers | DirectX/player/gpuPatchLayer.cpp:292-299 | every rewritten pointer leads as far into its group's buffer as the original led past the group's first descriptor |
| InstanceTheorems.PatchArrayOfPointers | DirectX/player/gpuPatchLayer.cpp:258-376 | every outcome of the branch: groups, rewritten pointers and layouts that fit together, or the limit that is exceeded |
| InstanceTheorems.LayOut | DirectX/player/gpuPatchLayer.cpp:352-376 | the span to copy and the descriptor indices, and exactly which size limit is exceeded otherwise |
| InstanceTheorems.LayoutCopies | DirectX/player/gpuPatchLayer.cpp:352-433 | the layout's start and size are the span copied, its indices the descriptors' places in that span |
| InstanceTheorems.CongruentDescriptorsArrive | DirectX/player/gpuPatchLayer.cpp:352-433 | for offsets congruent modulo 64 every complete schedule leaves every descriptor in place with only its structure address translated |
| InstanceTheorems.IncongruentUntouched | DirectX/player/gpuPatchLayer.cpp:366-370 | the address of a descriptor off the 64-byte grid is never patched |
| InstanceTheorems.IncongruentLost | DirectX/player/gpuPatchLayer.cpp:366-370 | a resource, a mapping and a schedule on which such a descriptor arrives wrong |
| InstanceTheorems.ArriveExactlyWhenCongruent | DirectX/player/gpuPatchLayer.cpp:352-433 | for all resources, mappings and schedules the descriptors arrive patched if and only if their offsets are congruent modulo 64 |
| InstanceTheorems.PointerLeadsToDescriptor | DirectX/player/gpuPatchLayer.cpp:258-433 | under congruence, for resources below 4 GB, a rewritten pointer leads to a copy of the very descriptor its capture pointer named, at the full 64-bit distance into the resource, with only its structure address translated |
| DispatchRays.GetDispatchRaysPatchSize | DirectX/player/gpuPatchLayer.cpp:615-643 | computes where the table after the last would start |
| DispatchRays.PatchDispatchRays | DirectX/player/gpuPatchLayer.cpp:502-599 | every present table is copied to the running offset and its address now points there; absent tables are left alone |
| DispatchRays.WalkIsStart | DirectX/player/gpuPatchLayer.cpp:571-577 | the 32-bit offset of the walk is the 64-bit place computed in advance, cut to 32 bits |
| DispatchRays.WalkReachesSize | DirectX/player/gpuPatchLayer.cpp:502-643 | for any list of tables the walk ends at the computed size if and only if that size fits 32 bits |
| DispatchRays.Packed | DirectX/player/gpuPatchLayer.cpp:615-643 | absent tables take no space, a present one its bytes and less than 64 bytes of padding |
| DispatchRays.RegionsInside | DirectX/player/gpuPatchLayer.cpp:543-577 | every copied region lies inside the size and starts on the shader-table alignment |
| DispatchRays.RegionsDisjoint | DirectX/player/gpuPatchLayer.cpp:543-577 | the copied regions are pairwise disjoint and every present table has one |
| DispatchRays.WholeRecords | DirectX/player/gpuPatchLayer.cpp:521-525 | a table below 4 GB is copied in whole records of its stride, as many as fit; without a stride it is copied whole |
| DispatchRays.LargeTablesOverflow | DirectX/player/gpuPatchLayer.cpp:571-577 | two tables of 2 GB on which walk and size part ways |
| SequentialExecutor.NextKeeps | player/sequentialExecutor.cpp:41-98 | every step of the dispatcher and the thread loops, spurious wake-ups included, keeps the invariant: nobody sleeps through the event it waits for |
| SequentialExecutor.TokensRunInOrder | player/sequentialExecutor.cpp:41-120 | in every interleaving tokens run one at a time, exactly once, in dispatch order, on their designated thread; Run returns only after its token has run; nullRun runs none |
| SequentialExecutor.NoDeadlock | player/sequentialExecutor.cpp:45-59 | in every reachable unfinished state a step other than a spurious wake-up is possible |
| SequentialExecutor.StepLowers | player/sequentialExecutor.cpp:41-98 | every step but a spurious wake-up lowers a measure |
| SequentialExecutor.SchedulesAreBounded | player/sequentialExecutor.cpp:41-120 | a schedule is no longer than a bound in the stream's length and the number of spurious wake-ups |
| SequentialExecutor.MaximalSchedulesFinish | player/sequentialExecutor.cpp:87-120 | a schedule that only spurious wake-ups could prolong has dispatched the whole stream, and then every token has run in stream order on its thread |
| SequentialExecutor.EveryScheduleCanFinish | player/sequentialExecutor.cpp:87-120 | wherever a schedule has got to, it can be carried on to the end of the stream |
| CommandListShadow.GpuPatchCommandListService.StoreCommand | DirectX/player/gpuPatchCommandListService.cpp:15-100 | the list's shadow takes the command, other lists keep theirs |
| CommandListShadow.GpuPatchCommandListService.ResetList | DirectX/player/gpuPatchCommandListService.cpp:106-113 | the shadow is empty but for the initial pipeline |
| CommandListShadow.GpuPatchCommandListService.Remove | DirectX/player/gpuPatchCommandListService.cpp:102-104 | the list has no shadow, others keep theirs |
| CommandListShadow.GpuPatchCommandListService.RestoreState | DirectX/player/gpuPatchCommandListService.cpp:115-178 | from any list state, issuing the stored commands gives the state the shadow describes |
| CommandListShadow.GivesBackIsAgreement | DirectX/player/gpuPatchCommandListService.cpp:115-178 | RestoreState gives back every set component, whatever the patch work left under its own root signature, if and only if the shadow has the list's pipeline where one is set and, under a root signature, its signature and arguments |
| CommandListShadow.GivesBackExactlyWhenGuarded | DirectX/player/gpuPatchCommandListService.cpp:15-113 | one command keeps that so if and only if it does not set the current signature again over live bindings, rewrites all constants of its parameter, and is no ClearState to a pipeline other than the stored one |
| CommandListShadow.RestoreGivesBack | DirectX/player/gpuPatchCommandListService.cpp:15-178 | for every sequence of commands: RestoreState gives back every component the application had set, wherever in the sequence it is called, if and only if every command meets that guard |
| CommandListShadow.NoSignatureNoArguments | DirectX/player/gpuPatchCommandListService.cpp:15-19 | where arguments are set under a root signature, as the API requires, a list without a signature has no arguments to give back |
| CommandListShadow.RedundantSignatureLost | DirectX/player/gpuPatchCommandListService.cpp:15-19 | setting the current signature again loses its bindings |
| CommandListShadow.FirstConstantLost | DirectX/player/gpuPatchCommandListService.cpp:31-40 | of constants set in two calls only the second comes back |
| CommandListShadow.ClearedStateReturns | DirectX/player/gpuPatchCommandListService.cpp:121-129 | a state the application cleared comes back |
| YamlDelta.NodesEqualExact | launcher/yamlUtils.cpp:31-63 | on trees with unique keys NodesEqual is equality of meaning together with null-freeness |
| YamlDelta.NullFreeByMeaning | launcher/yamlUtils.cpp:60-62 | being null-free depends on the meaning of a tree only |
| YamlDelta.NodesEqualReflexive | launcher/yamlUtils.cpp:31-63 | a tree equals itself exactly when it holds no null |
| YamlDelta.NodesEqualSymmetric | launcher/yamlUtils.cpp:31-63 | NodesEqual is symmetric |
| YamlDelta.NodesEqualTransitive | launcher/yamlUtils.cpp:31-63 | NodesEqual is transitive |
| YamlDelta.GenerateDeltaRecursive | launcher/yamlUtils.cpp:65-100 | computes the delta entry by entry and leaves the key path as it found it |
| YamlDeltaTheorems.GenerateDeltaNode | launcher/yamlUtils.cpp:272-278 | for all trees: the exception is raised exactly for a non-empty map over a scalar base; otherwise the node is empty exactly when the base holds all of the current tree already, and laying it over the base gives the current tree exactly when, for two maps, the base has no keys the current tree lacks |
| YamlDeltaTheorems.DeltaAt | launcher/yamlUtils.cpp:65-100 | what the delta holds at each key of the current map |
| YamlDeltaTheorems.DeltaRebuilds | launcher/yamlUtils.cpp:65-100 | laying the stored node, which is empty when nothing differs, over the base gives the current tree if and only if every map of the base has only keys of the corresponding current map |
| YamlDeltaTheorems.DeltaEmptyExactly | launcher/yamlUtils.cpp:65-100 | for any two maps the delta is empty if and only if the base has every value of the current tree already, map by map, and none of them holds a null |
| YamlDeltaTheorems.DeltaEmptyWhenSame | launcher/yamlUtils.cpp:65-100 | over a base without further keys the delta is empty if and only if the two maps mean the same and hold no null |
| YamlDeltaTheorems.DeltaIsLean | launcher/yamlUtils.cpp:65-100 | on no level does the delta repeat what the base has already |
| SalCodec.EncodeSal | DirectX/codegen/header_preprocessor.py:135-149 | the seven replacements in table order expand every escaped character and nothing else |
| SalCodec.EscapeTable | DirectX/codegen/header_preprocessor.py:138-146 | what each character becomes: the seven escapes, and every other character itself |
| SalCodec.ExpandConcat | DirectX/codegen/header_preprocessor.py:147-148 | a text is encoded character by character |
| SalCodec.DecodeText | DirectX/codegen/intermediates_creator.py:25-36 | the seven replacements back, leftmost occurrences first |
| SalCodec.StageRecovers | DirectX/codegen/intermediates_creator.py:35-36 | a replacement that swallows no digit takes back exactly its own escapes |
| SalTheorems.StageLoses | DirectX/codegen/intermediates_creator.py:35-36 | a replacement that swallows a digit changes what no later one can repair |
| SalTheorems.DecodeRecoversExactly | DirectX/codegen/intermediates_creator.py:25-36 | for every text decoding recovers it if and only if no digit 1-7 has three free underscores on both sides at its replacement |
| SalTheorems.NoLoneDigitIsUnambiguous | DirectX/codegen/intermediates_creator.py:25-36 | that is so for texts in which no digit stands between underscores or escaped characters |
| SalTheorems.LoneDigitSwallowed | DirectX/codegen/intermediates_creator.py:25-36 | it is not so for ")1(" |
| SalParameter.Parameter.DecodeSal | DirectX/codegen/intermediates_creator.py:18-36 | the type is split after its last pair of underscores and the front part decoded; otherwise nothing changes |
| SalParameter.SplitsExactly | DirectX/codegen/intermediates_creator.py:19-23 | the split is right if and only if the text ends in an underscore or escaped character and the name neither holds a pair of underscores nor starts with one |
| SalParameter.RoundTripExactly | DirectX/codegen/header_preprocessor.py:135-154 | for every text and type name decoding undoes encoding if and only if the split is right and no digit is swallowed |
| SalParameter.RoundTrip | DirectX/codegen/header_preprocessor.py:135-154 | the documented case |
| CommandIds.CommandIdsFile.CacheCommand | DirectX/codegen/command_ids.py:66-95 | a new command gets its API's base plus count and the count grows; a known one changes nothing |
| CommandIds.CollectCommands | DirectX/codegen/command_ids.py:108-121 | free functions first, then the methods of each interface, of one API |
| CommandOrder.HeaderInOrder | DirectX/codegen/command_ids.py:108-126 | the commands of an update are exactly those of the header's declarations, named ID_FUNCTION and ID_INTERFACE_METHOD: API by API, free functions before methods, each in header order, none left out or repeated |
| CommandOrder.DeclaredCommandsGiven | DirectX/codegen/command_ids.py:108-126 | after the first update of the documented empty file exactly the commands of the declarations have an identifier |
| CommandOrder.HeaderIdentifiers | DirectX/codegen/command_ids.py:66-126 | within an API identifiers follow that order: a declaration whose command is no earlier one's gets a larger identifier than all before it |
| CommandIds.BasesInOrder | DirectX/codegen/command_ids.py:52-64 | each API's base is one block above the one before it, with the blocks of two other APIs passed over |
| CommandIds.CommandIdsFile.BuildCommandIds | DirectX/codegen/command_ids.py:108-126 | an update caches the commands of every API in order |
| CommandIds.IdsAreStable | DirectX/codegen/command_ids.py:66-68 | over any sequence of updates an identifier once given never changes, and exactly the commands seen have one |
| CommandIds.UpdatesStayDense | DirectX/codegen/command_ids.py:92-95 | identifiers of an API stay distinct and consecutive from its reserved count |
| CommandIds.SameHeaderTwice | DirectX/codegen/command_ids.py:66-68 | a header seen before changes nothing |
| CommandIds.BlockExactly | DirectX/codegen/command_ids.py:52-64 | an API stays inside its block if and only if its count is at most 0x500 |
| CommandIds.NoCollisions | DirectX/codegen/command_ids.py:52-95 | after any updates identifiers of different APIs never collide while every count is at most 0x500 |
| CommandIds.CollideExactly | DirectX/codegen/command_ids.py:66-95 | two APIs share an identifier if and only if the ranges from base plus reserved count to base plus count meet |
| CommandIds.FromTheEmptyFile | DirectX/codegen/command_ids.py:18-50 | from the documented empty file, after any updates, identifiers are distinct and consecutive from the documented counts, and APIs collide exactly when their ranges meet |
| CommandIds.CollisionBeyondBlock | DirectX/codegen/command_ids.py:52-64 | a cache with one count over the limit on which two commands collide |

## Left out

- Object, queue and fence calls into D3D12, DXGI and COM, barriers, shader compilation, DLL loading and event waits: foreign code. A resource is a word array, a fence a completed value, an object a reference count.
- The await and creation layers and the executor are transition systems, not classes: their steps interleave with other threads. The creation service's own critical sections are methods of a class as well.
- `LoadPipelineState` may top up the reference count it returns; every functor here returns a count of 1.
- Service shutdown (`m_Done`, thread joins) and executor teardown.
- QueryInterface answered by another object, and creation of a state object from existing collections beyond the order in which it completes them: a collection is completed by the command that uses it, before the dependent creation is scheduled.
- `GetPrivateData`, `SetName` and other commands the await layer only skips.
- A shader table outside every known resource, which the code asserts against.
- Contents of the mapping buffers at submission and the exits when they are too small: only which buffers are written is modelled.
- The conversion of the requested size by the floating-point growth multiplier: the grown size is a parameter at least as large as the request.
- How mapping tables are filled and sorted; the order they end up in is assumed.
- Threads of a dispatch larger than the API's limit of 65535 groups.
- The number of instance pointers in the description and in the recorded array is taken to be the same, and their resources to be smaller than 4 GB.
- Texture, image and vertex data in dumps: of `executeIndirectDump.cpp` only the offset walk, of the dump services nothing.
- Aliasing of YAML nodes: the delta shares nodes with the current tree, which is not changed afterwards. `GenerateFormattedYaml` and its parser are not part of this model.
- The regular expressions that find an annotation in a header line, a trailing `const`, and `sal_size`: only escaping, splitting and unescaping.
- Reading and writing `command_ids.json`, and what `upper()` does to a name: a parameter.
- Launcher panels, process launching, registry and mail, installers, generated plumbing, and small key-to-value services: they would add only easy members.
