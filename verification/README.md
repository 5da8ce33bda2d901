# Verified models of the GPU reference stack

Dafny models of the hard parts of the C reference stack, with proofs of what they are for:

- the ring collectives and the simulated fabric below them (`Fabric`, `FabricLaws`, `FabricQueue`, `FabricChannels`, `RingSpec`, `RingProofs`, `GatherSpec`, `Bvcomm`);
- the BradVector toolchain end to end (`BradVector`, `Bradc*`, `Bvbc*`, `Bvrt*`, `Kernel*`, `Bvml*`, `Observers`): the source text of the GEMM, dot and SAXPY kernels is assembled by the modelled assembler, run by the modelled 32-lane interpreter, launched by the modelled host calls, and the host buffers end up holding the promised matrix, sum and vector;
- the SPMP memory allocator (`Spmp*`);
- the pipelined CPU emulator against its sequential instruction set (`BradCore`, `BradLaws`, `BradPipeline`, `BradRuns`, `BradTiming`, `BradCountdown`, `BradStale`, `BradEmulator`);
- the freestanding runtime's 64-bit division, overlapping copies and number conversion (`WasmShim`, `WasmNumbers`, `WasmLaws`).

Code that changes state in the source is a class or a method here, proved equal to a function on values; what the source promises is then proved about those functions. What an operation, a format or a constant means is stated once more in plain numbers, apart from the definitions that the proofs use: in `BitLaws`, `BradLaws`, `BvrtLaws`, `BradcLaws`, `BvbcLayout`, `BvmlLaws`, `FabricLaws` and `WasmLaws`, and beside the definitions elsewhere. `Bits` holds words, bytes and the digit-wise operators.

## Reading notes

- **Floating point** is uninterpreted: `Bvrt.Fpu` is any set of functions on 32-bit patterns, and the collectives take any addition. The kernels copy registers with an addition of the immediate 0 (`MOV`), so their theorems assume `Kernels.MovExact`: adding +0 leaves the bit patterns below 0x7F800000 unchanged. `BvmlLaws.ExactCell` turns the bit-pattern statement into ordinary arithmetic wherever nothing is rounded.
- **Integers** are unbounded in Dafny; 32- and 64-bit wrap-around is written out where the source can wrap. Host buffers are assumed smaller than 2^58 elements, so byte counts in the host calls do not wrap.
- **Host calls.** A `bvml` context remembers the requested memory size while the device clamps it to 64 MiB, and the size tests use the former. The calls are therefore specified for operands that, when they pass the size test, also fit the device (`Bvml.FitsDevice`), which is all operands exactly for contexts of at most 64 MiB.

Where the code does less than it seems to promise, the exact condition is proved, with an input that fails:

- the allocator's second capacity test comes after the leading hole is filed, so an allocation that needs two slots with one left corrupts the table: `SpmpRuns.AllocKeepsInvIff`, and `SpmpLeak.LeakIsReachable` reaches that state with ordinary calls. The allocations that are held stay sound all the same: `SpmpSafety.EveryRunIsSafe`. Dead slots are never reused (`SpmpRuns.SlotsNeverReclaimed`); a request within 16 bytes of 2^64 wraps to a small block (`SpmpProofs.NeededCoversRequest`, `SpmpProofs.LargestRequestGetsSmallestBlock`); the fragmentation figure is the true percentage exactly when its product does not wrap (`SpmpTable.FragmentationExactIff`): three calls on a pool of 2^60 bytes make it report 1 percent for 49 (`SpmpFragments.FigureMisses`);
- a pipeline runs a stale instruction if and only if the sequential run changes an instruction word between the moment at which the pipeline has fetched it and its execution: `BradRuns.NeverStaleIff`. `BradStale.DeepPipelinesStale` and `BradStale.StaleInstructionRuns` show such a program; the Falcon-Lite pipeline is never stale (`BradStale.LiteNeverStale`); that no store reaches the words behind it is enough (`BradStale.SafeRunIsFresh`) but not necessary (`BradStale.FlushedStoreIsFresh`);
- the label table is shared by all kernels of a source. A branch to a label of its own kernel lands there if and only if that definition has the same index in its kernel as the label's first definition in the source: `BradcProofs.OwnLabelLands`, and `BradcShared.SharedLabelMisses` shows a branch that does not. Whether a branch reaches the first definition itself, its own kernel having one or not, is `BradcProofs.BranchLands`;
- `SEL` is documented as `dst = pred ? src1 : src2`, but the predicate also disables the lane, so the second source is never written where the predicate is false: `BvrtLanes.SelectsIff`, `BvrtLanes.SelectMisses`;
- `CMP` is documented to take an immediate in the last place; a number there is accepted and dropped, so the comparison is with that number if and only if it is 0: `BradcOperands.CmpNumberIff`. A number as first source is taken for a register (`BradcOperands.NumberIsRegister`);
- of the operand forms that the toolchain's documentation lists, `LOADV V4, S5, 0`, `VADD V1, V2, V3`, `VBROADCAST V1, S2` and `ATOMIC_ADD S4, S5, 0` do not assemble: no line with the mnemonic `LOADV` or `ATOMIC_ADD` does (`BradcLaws.VectorLoadRefused`, `BradcLaws.AtomicRefused`), and a vector operation on three registers does if and only if its destination is a scalar register and its last operand a vector one, or a scalar one for `VBROADCAST` (`BradcLaws.VectorIff`);
- the kernels, words and constant bytes of an image are found again after packing and parsing if and only if every entry is below 2^29 and the constant region below 2^32: `BvbcRoundTrip.RecoveredIff`, `BvbcRoundTrip.LargeEntryIsLost`. Their count is another matter: the parser sets it to the whole region, names included, so that it comes back, and with it the image as a whole, if and only if there are no kernels (`BvbcRoundTrip.ConstantCountIff`, `BvbcRoundTrip.LosslessIff`, `BvbcRoundTrip.NameIsCounted`). Packing a parsed image again drops the names and takes as many bytes more from behind the constants. Those lie inside the buffer if and only if the names are no longer than the instruction stream (`BvbcRepack.ReopenFitsIff`); the bytes are then the same if and only if names and constants read as what follows the names does (`BvbcRepack.RepackIff`): always without kernels (`BvbcRepack.RepackWithoutKernels`), and with one kernel named "a" and one instruction only when that instruction begins with the bytes of the name (`BvbcRepack.NameIsOverwritten`);
- the parser's length test is exact with a 64-bit `size_t`; with the 32-bit one of the WebAssembly build it is exact if and only if the sum does not wrap or wraps past the buffer: `Bvbc.Asked32Iff`, `Bvbc.Asked32Misses`;
- the size tests of the collectives, of their initialisation and of the fabric's regions compute sums modulo 2^64; each is right exactly when the sum does not wrap or is refused all the same: `Bvcomm.RangeTestIff`, `Bvcomm.RangeTestMisses`, `Bvcomm.SizeTestIff`, `Fabric.RegionTestIff`, `Fabric.RegionTestMisses`. The collectives are specified for exactly those inputs;
- the emulator's bounds test, in 32 bits, is right except for the last four addresses before 2^32, and there only if the wrapped end is past memory: `BradEmulator.BoundsTestIff`, `BradEmulator.FaultIff`. A load at address -4 does not fault, and neither does a fetch from there (`BradEmulator.WrappedAddressPasses`). The interpreter's test, in 64 bits, misses likewise at its addresses -4 to -1: `BvrtLanes.BoundsTestIff`, `BvrtLanes.WrappedLoadPasses`;
- all channels of the fabric share one message queue: every channel receives exactly its own bytes in order if and only if no receive finds another channel's bytes among those it takes: `FabricChannels.OwnBytesIff`, `FabricChannels.ForeignByteReceived`;
- a window whose limit is 2^64 - 1 has its end wrapped to 0: the overlap test of two windows is right if and only if neither is such a window or the two are apart (`FabricLaws.OverlapIff`). It can be registered twice (`FabricLaws.TopWindowTwice`) and no region inside it is accepted (`FabricLaws.TopWindowRefuses`);
- a memory that is bound to a window may be shorter than the window, but the fabric's region test looks at the window alone: all accepted regions stay in the memory if and only if it fills the window (`Fabric.StaysIff`, `Fabric.ShortMemory`);
- a DMA returns its length cast to a 32-bit signed number, which is the length if and only if that is below 2^31: `Fabric.AsIntIff`;
- there is one fabric, and initialising the collectives resets it, so that a second world unbinds the first, whose transfers then move the second one's bytes: `Bvcomm.Reinitialise`, `Bvcomm.TransferOfEarlier`;
- whatever passes a `bvml` context's size test fits its device if and only if at most 64 MiB were requested: `Bvml.FitsDeviceIff`, `Bvml.ClampedOverrun`;
- a traced run that halts with the very last instruction of its budget is reported as a timeout, unlike the plain run: `Observers.Timeline.RunTraced`, `Observers.LastInstructionHalts`;
- the signed quotient is exact except for the smallest value divided by -1 (`WasmShim.QuotientExactIff`).

## Model

| member | source | states |
|---|---|---|
| Bvcomm.Init | toolchain/bvlibs/src/bvcomm.c:33-86 | initialisation fails exactly on the bad sizes and rank counts; otherwise the one fabric is reset and all windows are registered, bound, distinct and zeroed |
| Bvcomm.OneWorldPerFabric | toolchain/drivers/fabric.c:61-67 | two worlds that are wired to the fabric at the same time have the same memories |
| Bvcomm.Reinitialise | toolchain/bvlibs/src/bvcomm.c:51-54 | a later initialisation that succeeds leaves an earlier world unwired, with none of the new memories; one that fails leaves it wired |
| Bvcomm.TransferOfEarlier | toolchain/drivers/fabric.c:203-244 | a transfer of the earlier world then moves bytes between the later world's memories |
| Bvcomm.SizeTestIff | toolchain/bvlibs/src/bvcomm.c:38-39 | the stride test is right if and only if the sum of the sizes does not wrap or is refused all the same |
| Bvcomm.RangeTestIff | toolchain/bvlibs/src/bvcomm.c:122-123 | the range test of the collectives is right if and only if the byte end does not wrap or is refused all the same |
| Bvcomm.RangeTestMisses | toolchain/bvlibs/src/bvcomm.c:122-123 | one element at offset 2^62 passes the test of every buffer of four bytes or more |
| Bvcomm.World.Transfer | toolchain/bvlibs/src/bvcomm.c:116-234 | a transfer that stays inside two ranks' memories is never refused by the fabric, so ignoring its return value loses nothing; exactly the requested bytes arrive |
| Bvcomm.World.ChunkOffsets | toolchain/bvlibs/src/bvcomm.c:99-106 | the table of chunk offsets, equal to the closed form that the proofs use |
| RingSpec.ChunkInRange | toolchain/bvlibs/src/bvcomm.c:99-114 | every chunk lies in the range, chunks are consecutive, and each fits the inbox |
| RingSpec.LastChunkEnds | toolchain/bvlibs/src/bvcomm.c:99-106 | the chunks end exactly with the range |
| Bvcomm.ChunkCeiling | toolchain/bvlibs/src/bvcomm.c:108-114 | the longest chunk is count / n rounded up, which is what the scratch space has to hold |
| Bvcomm.World.SendRound | toolchain/bvlibs/src/bvcomm.c:141-177 | the send half of a round leaves the memories of the round specification, every inbox written once, and counts 4 * count bytes |
| Bvcomm.World.AddRound | toolchain/bvlibs/src/bvcomm.c:141-160 | the combining half of a reduce round, on all ranks in place |
| Bvcomm.World.CopyRound | toolchain/bvlibs/src/bvcomm.c:162-177 | the copying half of a gather round, on all ranks in place |
| Bvcomm.World.AllReduceSum | toolchain/bvlibs/src/bvcomm.c:116-180 | all return codes, the final memories of all ranks, unchanged memories on failure, and the traffic of 2(n-1) * 4 * count bytes |
| RingProofs.ReduceRoundsValue | toolchain/bvlibs/src/bvcomm.c:141-160 | round invariant of reduce-scatter: after s rounds the first s ranks past c have folded their contributions into chunk c, the others still hold their input |
| RingProofs.GatherRoundsValue | toolchain/bvlibs/src/bvcomm.c:162-177 | round invariant of the all-gather half: the complete fold has reached s more ranks |
| RingProofs.AllReduceFolds | toolchain/bvlibs/src/bvcomm.c:116-180 | the word at byte 4 * (off + e) of every rank ends as the last of a chain of additions that begins at the chunk's own rank and takes the words at that address of all ranks in ring order; no algebraic law is assumed |
| RingProofs.AllReduceKeeps | toolchain/bvlibs/src/bvcomm.c:116-180 | every user byte outside 4 * off to 4 * (off + count) is unchanged |
| RingProofs.RanksAgree | toolchain/bvlibs/src/bvcomm.c:116-180 | the bytes from 4 * off to 4 * (off + count) end up the same on all ranks, whatever the addition |
| RingProofs.AllReduceSums | toolchain/bvlibs/src/bvcomm.c:116-180 | with an associative and commutative addition the word at byte 4 * (off + e) is the sum of the words there over ranks 0 to n - 1 |
| Bvcomm.World.Broadcast | toolchain/bvlibs/src/bvcomm.c:182-201 | return codes, every rank's range becomes the root's, everything else is unchanged, and the traffic |
| Bvcomm.World.AllGather | toolchain/bvlibs/src/bvcomm.c:203-234 | return codes, the final memory of every rank as the gather specification, and the traffic of n * n * 4 * count bytes |
| Bvcomm.TrafficWritten | toolchain/drivers/fabric.c:236 | the byte counter after k transfers of c bytes, as a number |
| GatherSpec.AllGatherCollects | toolchain/bvlibs/src/bvcomm.c:203-234 | the bytes that rank src had at its input range end, on every rank, at the start of the output range plus src times the length, even when input and output ranges overlap |
| GatherSpec.AllGatherKeeps | toolchain/bvlibs/src/bvcomm.c:203-234 | all bytes outside the output range are unchanged |
| Fabric.RegionTranslates | toolchain/drivers/fabric.c:51-59 | on a window that does not wrap, the region test accepts exactly the regions inside it, and those translate as a whole |
| Fabric.RegionTestIff | toolchain/drivers/fabric.c:51-59 | for any region the test is right if and only if a sum that wraps does not end in the window |
| Fabric.RegionTestMisses | toolchain/drivers/fabric.c:51-59 | a region of nearly 2^64 bytes passes the test of a window of 100 |
| Fabric.StaysIff | toolchain/drivers/fabric.c:51-59 | every accepted region that does not wrap stays in the memory behind it if and only if that memory fills the window |
| Fabric.ShortMemory | toolchain/drivers/fabric.c:92-105 | a memory of 50 bytes is bound to a window of 100, and a region that runs past it is accepted |
| Fabric.FabricState.RegisterNode | toolchain/drivers/fabric.c:69-90 | registration fails exactly when the table is full or a registered window overlaps; otherwise the node is appended |
| FabricLaws.OverlapIff | toolchain/drivers/fabric.c:78-83 | the overlap test is right if and only if neither window reaches the top of the address space, or the two are apart |
| FabricLaws.TopWindowTwice | toolchain/drivers/fabric.c:78-83 | a window over the upper half of the address space is registered twice |
| FabricLaws.TopWindowRefuses | toolchain/drivers/fabric.c:51-59 | and no region inside such a window is accepted |
| Fabric.FabricState.BindMemory | toolchain/drivers/fabric.c:92-105 | binding succeeds exactly for a nonempty memory no longer than the window |
| Fabric.FabricState.ChannelOpen | toolchain/drivers/fabric.c:107-131 | a channel opens exactly between two registered nodes with known flags |
| Fabric.FabricState.Dma | toolchain/drivers/fabric.c:203-244 | the outcome of every case, wrapped tests and the cast of the length to int included; the bytes moved, with overlap, when both addresses have memory behind them; the byte and latency counters |
| Fabric.AsIntIff | toolchain/drivers/fabric.c:243 | the returned number is the length if and only if that is below 2^31 |
| FabricQueue.Messages.Send | toolchain/drivers/fabric.c:141-177 | every outcome; accepted bytes go behind what is queued and also to the start of the destination's memory |
| FabricQueue.Messages.Recv | toolchain/drivers/fabric.c:179-201 | hands out the oldest bytes, as many as wanted and present, and removes exactly those |
| FabricLaws.SentIff | toolchain/drivers/fabric.c:141-177 | a message is queued if and only if it is not empty, no longer than its channel allows and fits 131072 bytes with what is queued; and which refusal is given |
| FabricLaws.TakenIs | toolchain/drivers/fabric.c:179-201 | as many bytes are handed out as are wanted or there, whichever is less |
| FabricQueue.ReceivedInOrder | toolchain/drivers/fabric.c:141-201 | over any interleaving of sends and receives, received bytes followed by queued bytes are the accepted bytes in order, and the queue stays within its capacity |
| FabricQueue.UsedFromPositions | toolchain/drivers/fabric.c:153-193 | the fill count is (tail - head) modulo the capacity, except that full looks like empty |
| FabricChannels.TrafficIsReplay | toolchain/drivers/fabric.c:141-201 | labelling every byte with its channel changes nothing about the shared queue or what it accepts |
| FabricChannels.OwnBytesIff | toolchain/drivers/fabric.c:141-201 | over any interleaving, every channel receives exactly its own bytes, in order, if and only if no receive finds another channel's bytes among those it takes |
| FabricChannels.ForeignByteReceived | toolchain/drivers/fabric.c:141-201 | two channels: the second receives the byte that the first has sent |
| SpmpTable.SlotTable.BlockNextFree | toolchain/drivers/spmp.c:115-142 | first fit in slot order, with the aligned address |
| SpmpTable.SlotTable.AllocBlock | toolchain/drivers/spmp.c:144-202 | the in-place allocation does to the slot table exactly what the value-level allocation does, in every case |
| SpmpTable.SlotTable.Coalesce | toolchain/drivers/spmp.c:204-230 | the in-place coalescing pass equals the value-level pass |
| SpmpTable.SlotTable.FreeBlock | toolchain/drivers/spmp.c:232-256 | the in-place free equals the value-level free |
| SpmpTable.SlotTable.QueryStats | toolchain/drivers/spmp.c:363-394 | used, total and fragmentation figures; between calls used + free = total |
| SpmpTable.FragmentationExactIff | toolchain/drivers/spmp.c:374-391 | the figure is the true percentage, rounded down, if and only if the product does not wrap |
| SpmpFragments.FigureMisses | toolchain/drivers/spmp.c:374-391 | after three calls on a pool of 2^60 bytes the figure is 1 where the percentage is 49 |
| SpmpTable.FragmentationMeaning | toolchain/drivers/spmp.c:374-391 | the fragmentation figure is below 100, bounded by the share of free bytes outside the largest block, and 0 when one block holds them all |
| SpmpProofs.AlignUpIsLeast | toolchain/drivers/spmp.c:124-134 | rounding up gives the least aligned address not below the given one |
| SpmpProofs.NeededCoversRequest | toolchain/drivers/spmp.c:155-160 | the rounded size, as a number; it covers the request exactly when adding 15 does not wrap |
| SpmpProofs.NeededIsLeast | toolchain/drivers/spmp.c:155-160 | without a wrap it is the least multiple of 16 that covers the request and is at least 64 |
| SpmpProofs.AlignmentIs | toolchain/drivers/spmp.c:124-130 | the alignment in force is the requested one above 16, and 16 otherwise |
| SpmpProofs.LargestRequestGetsSmallestBlock | toolchain/drivers/spmp.c:155-160 | the largest request wraps to the smallest block |
| SpmpProofs.CarveFree | toolchain/drivers/spmp.c:167-194 | carving takes exactly the carved addresses from the free ones |
| SpmpProofs.NoFitIffNoRegion | toolchain/drivers/spmp.c:115-142 | first fit finds nothing exactly when no aligned contiguous free range of that size exists |
| SpmpProofs.FreeRangesCanonical | toolchain/drivers/spmp.c:204-230 | with no two adjacent free blocks the set of free ranges depends on the free addresses alone |
| SpmpProofs.CoalesceNormalises | toolchain/drivers/spmp.c:204-230 | the single index-order pass leaves no two adjacent free blocks for any table in any slot order, and changes neither the free addresses nor the used blocks nor the totals |
| SpmpProofs.MergeIs | toolchain/drivers/spmp.c:204-230 | two free blocks that touch become one in the slot of the lower one, and the other slot becomes empty and used |
| SpmpRuns.CreateEstablishesInv | toolchain/drivers/spmp.c:74-100 | a new pool satisfies the pool invariant: exact tiling, no adjacent free blocks, correct counters |
| SpmpRuns.AllocKeepsInvIff | toolchain/drivers/spmp.c:144-202 | an allocation keeps the invariant if and only if it is not the call that finds one slot left and needs two |
| SpmpRuns.LeakBreaksInv | toolchain/drivers/spmp.c:167-189 | that call reports no space and breaks the invariant |
| SpmpRuns.AllocTakesRegion | toolchain/drivers/spmp.c:144-202 | a successful allocation has an address that is a multiple of the requested alignment, or of 16 if that is less; its size covers the request; it lies inside the pool, was entirely free, and is exactly what left the free set and joined the used ones |
| SpmpRuns.AllocFirstFit | toolchain/drivers/spmp.c:115-142 | it comes from the first free slot that has an aligned region of that size, at the first such address in it |
| SpmpRuns.AllocTable | toolchain/drivers/spmp.c:162-202 | the slot table afterwards: the allocation in its slot, what was left before and behind it in new slots in that order, no other slot changed |
| SpmpRuns.AllocOutcomes | toolchain/drivers/spmp.c:144-202 | which status is returned when, with the table's 512 slots |
| SpmpRuns.NoMemoryIffNoRegion | toolchain/drivers/spmp.c:144-202 | out-of-memory is reported if and only if no free region of the rounded size exists at a multiple of the requested alignment, or of 16 if that is less |
| SpmpRuns.FreeGivesBack | toolchain/drivers/spmp.c:232-256 | free succeeds exactly on live allocations, gives back exactly their addresses and keeps the invariant; otherwise nothing changes |
| SpmpRuns.AllocFreeRoundTrip | toolchain/drivers/spmp.c:144-256 | allocating and freeing restores the set of free ranges, the set of used ranges and the counter |
| SpmpRuns.RunKeepsInv | toolchain/drivers/spmp.c:74-256 | over every run of calls without the failing case the invariant holds and the used blocks are exactly the caller's live allocations |
| SpmpSafety.AllocIsSafe | toolchain/drivers/spmp.c:144-202 | in every reachable state, after a leak too, a grant is new, at a multiple of the alignment that was asked for, covers the size that was asked for, and is apart from the blocks in use |
| SpmpSafety.FreeIsSafe | toolchain/drivers/spmp.c:204-256 | in every reachable state free gives back exactly a live allocation or does nothing, and coalescing touches no block in use |
| SpmpSafety.EveryRunIsSafe | toolchain/drivers/spmp.c:74-256 | over every run of calls whatever, the held allocations are in the pool, at multiples of the alignment and of the size that were asked for, and pairwise disjoint, and the counter is their sum |
| SpmpRuns.SlotsNeverReclaimed | toolchain/drivers/spmp.c:144-256 | slots are never reused: a full table refuses every later allocation |
| SpmpLeak.LeakIsReachable | toolchain/drivers/spmp.c:167-189 | a concrete run of ordinary calls reaches the failing case |
| BradCore.DecodeFields | toolchain/include/brad/bradisa.h:342-352 | an instruction word put together from its fields decodes to them, with the immediate sign-extended |
| BradLaws.OpcodeNumbers | toolchain/include/brad/bradisa.h:84-101 | which operation each of the sixteen codes stands for |
| BradLaws.AluComputes | toolchain/emu/brad_core_emu.c:9-23 | sum, difference and product modulo 2^32, and AND, OR, XOR and the shifts digit by digit |
| BradLaws.Arithmetic | toolchain/emu/brad_core_emu.c:74-86 | an arithmetic instruction changes its destination alone, to that result of its two sources; the smallest core multiplies to 0 and has eight registers |
| BradLaws.AddImmediate | toolchain/emu/brad_core_emu.c:87-91 | ADDI adds the sign-extended immediate |
| BradLaws.LoadWord | toolchain/emu/brad_core_emu.c:92-100 | a load of a word in memory puts its four bytes, the lowest first, into the destination |
| BradLaws.StoreWord | toolchain/emu/brad_core_emu.c:101-108 | a store to a word in memory makes its four bytes those of the register and changes no other |
| BradLaws.Branches | toolchain/emu/brad_core_emu.c:109-148 | BZ is taken if and only if its register is 0, BNZ if and only if it is not, JMP, CALL and RET always; the targets, the link register and the counters |
| BradLaws.FetchIs | toolchain/emu/brad_core_emu.c:153-194 | a fetch decodes the four bytes at pc, or finds nothing where they are not in memory |
| BradLaws.SequentialStep | toolchain/emu/brad_core_emu.c:196-385 | the sequential machine goes on at a taken branch's target and four bytes on otherwise |
| BradEmulator.CoreState.ExecuteInsn | toolchain/emu/brad_core_emu.c:59-151 | executing in place equals the value-level instruction: counters, the fault that is returned, and the redirected fetch address |
| BradEmulator.FaultKeeps | toolchain/emu/brad_core_emu.c:92-108 | only loads and stores fault, and a fault changes the instruction count alone |
| BradEmulator.BoundsTestIff | toolchain/emu/brad_core_emu.c:95 | the 32-bit test refuses exactly the words that are not in memory, if and only if the end of the word does not wrap, or is past memory when wrapped, or the word is in memory |
| BradEmulator.FaultIff | toolchain/emu/brad_core_emu.c:92-108 | a load or store faults exactly when its word is not in memory, if and only if its address is not one of those four with a wrapped end inside memory |
| BradEmulator.WrappedAddressPasses | toolchain/emu/brad_core_emu.c:92-194 | a load at address -4 of a memory of 100 bytes does not fault, and a jump there is followed by a successful fetch |
| BradEmulator.CoreState.AdvancePipeline | toolchain/emu/brad_core_emu.c:25-36 | all stages move on by one and the first becomes empty |
| BradEmulator.CoreState.PipelineFlush | toolchain/emu/brad_core_emu.c:38-51 | all stages become empty |
| BradEmulator.CoreState.FetchInsn | toolchain/emu/brad_core_emu.c:153-194 | an uncompressed fetch: the instruction at pc and pc + 4, or nothing at the end of memory |
| BradEmulator.CoreState.RunPipeline | toolchain/emu/brad_core_emu.c:196-385 | one cycle of any of the four pipelines, in place, equals the value-level cycle |
| BradEmulator.CoreState.RunCore | toolchain/emu/brad_core_emu.c:541-554 | the run loop makes whole cycles until the core stops or the cycle budget is reached |
| BradEmulator.CycleProgress | toolchain/emu/brad_core_emu.c:196-385 | a cycle is counted unless it flushes, and then the next one is: the run loop ends |
| BradPipeline.CycleRefines | toolchain/emu/brad_core_emu.c:196-385 | one cycle of any pipeline is one sequential instruction when it retires a fresh one and none otherwise, and keeps the in-flight invariant |
| BradRuns.RunRefines | toolchain/emu/brad_core_emu.c:196-385 | while the instructions retired so far were fresh, the core stands for the sequential state after as many of them |
| BradRuns.PipelineRefinesIsa | toolchain/emu/brad_core_emu.c:196-385 | without stale instructions, registers, memory and counters equal those of the sequential run of the retired instructions, through flushes and drain; a stopped core means the sequential program is finished |
| BradRuns.NeverStaleIff | toolchain/emu/brad_core_emu.c:196-385 | a pipeline never executes a stale instruction if and only if the sequential run leaves every instruction word unchanged from the point at which that pipeline has fetched it |
| BradRuns.FirstStale | toolchain/emu/brad_core_emu.c:196-385 | the first instruction that a store has changed after its fetch is retired stale, by a core that gets that far |
| BradRuns.PipelineStops | toolchain/emu/brad_core_emu.c:196-385 | a program that ends sequentially ends in the pipeline within a fixed number of cycles per instruction, with the same result |
| BradTiming.CountersExact | toolchain/emu/brad_core_emu.c:196-385 | while what is retired is fresh, the hazard counter is the number of taken branches; and the cycle counter of a stopped core is one per retired instruction, the execute stage's number less one per taken branch, and the time that the last instruction needs to leave the pipeline |
| BradTiming.StopsExactly | toolchain/emu/brad_core_emu.c:196-385 | for every program that halts, the one cycle in which each of the four pipelines stops, and its registers, memory and counters then |
| BradCountdown.CountsDown | toolchain/emu/brad_core_emu.c:196-385 | a countdown loop of ADDI and BNZ stops on each of the four pipelines after exactly so many cycles, for every start value, with 0 in its register, all counters exact, and nothing else changed |
| BradRuns.ModelsAgree | toolchain/emu/brad_core_emu.c:196-385 | two pipeline models with equally many registers, on a program of which neither of the two ever executes a stale instruction, give identical results |
| BradStale.SafeRunIsFresh | toolchain/emu/brad_core_emu.c:196-385 | no instruction is stale when every store leaves the words fetched behind it as they were |
| BradStale.LiteNeverStale | toolchain/emu/brad_core_emu.c:338-385 | the Falcon-Lite pipeline is never stale, whatever the program stores |
| BradStale.FlushedStoreIsFresh | toolchain/emu/brad_core_emu.c:38-51 | a fetched word that is overwritten and then flushed makes nothing stale |
| BradStale.DeepPipelinesStale | toolchain/emu/brad_core_emu.c:196-336 | on Phoenix, Falcon and Kestrel a store to the next instruction makes it stale |
| BradStale.StoreElsewhereIsSafe | toolchain/emu/brad_core_emu.c:59-151 | a store clear of the next instruction words meets the store condition |
| BradStale.StaleInstructionRuns | toolchain/emu/brad_core_emu.c:243-290 | a concrete program on which the Falcon core executes the overwritten instruction and ends with other registers |
| BradVector.DecodeEncode | toolchain/include/brad/bradvector.h:64-105 | decoding an encoded instruction gives back every field, with the immediate's sign |
| BradVector.OpCodes | toolchain/include/brad/bradvector.h:109-216 | every opcode byte is the code of the operation it decodes to |
| BradVector.WordLayout | toolchain/include/brad/bradvector.h:64-105 | the encoded word as a number: operation, predicate, destination, sources, immediate, flags and modifier, each times the weight of its byte |
| BradVector.OperationNumbers | toolchain/include/brad/bradvector.h:109-216 | the numbers of the arithmetic, integer, control and special operations |
| BradVector.MemoryNumbers | toolchain/include/brad/bradvector.h:155-166 | the numbers of the memory operations |
| BvrtDevice.BvrtDevice.Launch | toolchain/bradvector/bvrt.c:625-646 | a launch zeroes registers and stacks, activates all lanes, puts lane ids in S1 and the arguments in S16 and up, and keeps memory |
| BvrtDevice.BvrtDevice.ComputeAll | toolchain/bradvector/bvrt.c:60-375 | the lane loop of a computing instruction, in place, equals the value-level one |
| BvrtDevice.BvrtDevice.AccessAll | toolchain/bradvector/bvrt.c:376-430 | the lane loop of a memory instruction, in place: lane order, the stop at the first out-of-bounds lane, and the bytes written |
| BvrtDevice.BvrtDevice.ExecuteInsn | toolchain/bradvector/bvrt.c:60-543 | executing an instruction in place equals the value-level semantics, in state and status |
| BvrtDevice.BvrtDevice.Step | toolchain/bradvector/bvrt.c:545-558 | one step in place equals the value-level step |
| BvrtDevice.BvrtDevice.Run | toolchain/bradvector/bvrt.c:560-570 | the stepping loop in place equals the value-level run |
| BitLaws.LogicAt | toolchain/bradvector/bvrt.c:267-290 | AND, OR and XOR act digit by digit |
| BitLaws.NotAt | toolchain/bradvector/bvrt.c:282-286 | NOT turns every digit over |
| BitLaws.ShiftAt | toolchain/bradvector/bvrt.c:255-266 | the shifts move every digit by so many places and fill with 0 |
| BitLaws.LittleEndian | toolchain/bradvector/bvrt.c:376-406 | a word is stored and read as four bytes, the lowest first, and storing it changes no other byte |
| BvrtLaws.IntegerIs | toolchain/bradvector/bvrt.c:198-286 | what each integer operation computes: arithmetic modulo 2^32, division with all ones for divisor 0, counts of one bits and of leading zeros, the highest one bit, and digits moved or combined |
| BvrtLaws.ResultIs | toolchain/bradvector/bvrt.c:69-290 | what every computing operation gives, for any floating-point unit; lane number, warp size and clock included |
| BvrtLaws.ComputesInLane | toolchain/bradvector/bvrt.c:60-290 | a computing instruction writes that value to the destination of every enabled lane, except to register 0, and changes nothing else in any lane |
| BvrtLaws.ComparesInLane | toolchain/bradvector/bvrt.c:179-197 | CMP writes 1 or 0 to the predicate register by the relation that the flags name, on unsigned words |
| BvrtLaws.AccessOfLane | toolchain/bradvector/bvrt.c:376-430 | what load, store and atomic addition do at an address inside memory, which is the signed base plus the offset |
| BvrtLaws.AccessTrapsIff | toolchain/bradvector/bvrt.c:376-430 | the lane loop stops with a trap if and only if some enabled lane's word is refused |
| BvrtLaws.MemoryStatus | toolchain/bradvector/bvrt.c:376-430 | and then the program counter stays, otherwise it goes on by one |
| BvrtLaws.BranchesWarp | toolchain/bradvector/bvrt.c:433-448 | BR and BR_COND take the whole warp to pc + 1 + offset when any lane is enabled, and go on by one otherwise |
| BvrtLaws.EndsOrWaits | toolchain/bradvector/bvrt.c:470-476 | EXIT ends all lanes, barriers step on |
| BvrtLaws.Traps | toolchain/bradvector/bvrt.c:477-543 | TRAP and every undefined code trap and change nothing else |
| BvrtLaws.Calls | toolchain/bradvector/bvrt.c:449-469 | CALL pushes pc + 1 in every enabled lane and goes to pc + 1 + offset, or traps if and only if some enabled lane's stack of 16 is full |
| BvrtLaws.Returns | toolchain/bradvector/bvrt.c:450-469 | RET pops every active lane and goes to the return address of the last one, or traps if and only if some active lane's stack is empty |
| BvrtLaws.LaunchIs | toolchain/bradvector/bvrt.c:625-646 | what every register of every lane holds after a launch |
| BvrtLaws.StepIs | toolchain/bradvector/bvrt.c:545-558 | a step: nothing when all lanes have ended, a trap outside the code, and otherwise the instruction there |
| BvrtInteger.CountAndOr | toolchain/bradvector/bvrt.c:227-290 | population counts of AND and OR add up to those of the operands |
| BvrtInteger.LeadingZeros | toolchain/bradvector/bvrt.c:236-254 | CLZ and BFIND locate the highest one bit, and agree on zero |
| BvrtInteger.ShiftBack | toolchain/bradvector/bvrt.c:255-266 | shifting left and back right restores a value whose high digits were clear |
| BvrtLanes.AtomicAll | toolchain/bradvector/bvrt.c:419-430 | when all enabled lanes add to one word, it ends as its old value plus everything added modulo 2^32, and each lane receives the value left by the lanes before it |
| BvrtLanes.AtomicTotals | toolchain/bradvector/bvrt.c:419-430 | the same in plain sums: lane l gets the old word plus the addends of the lanes before it, and the word ends as that of all of them |
| BvrtLanes.BoundsTestIff | toolchain/bradvector/bvrt.c:376-430 | the bounds test of a lane's access refuses exactly the accesses outside memory, if and only if the address is not one of -4 to -1 with its end inside memory |
| BvrtLanes.WrappedLoadPasses | toolchain/bradvector/bvrt.c:376-387 | after a launch with any memory a load at address -4 does not trap |
| BvrtLanes.SelectsIff | toolchain/bradvector/bvrt.c:172-178 | under a predicate, SEL gives a lane the documented choice if and only if the predicate holds or the lane held the second source already |
| BvrtLanes.SelectMisses | toolchain/bradvector/bvrt.c:172-178 | a concrete lane that does not get the second source |
| BvrtUniform.ExecuteAgrees | toolchain/bradvector/bvrt.c:60-543 | one instruction on lanes that agree on what it reads does what one lane does, and makes no further register differ |
| BvrtCertificate.StepAgrees | toolchain/bradvector/bvrt.c:545-558 | under a dataflow certificate a step of the warp and of one lane agree, traps included, and no further register comes to differ |
| BvrtCertificate.WarpRunsAsOneLane | toolchain/bradvector/bvrt.c:545-570 | lane uniformity: a certified program run on 32 lanes ends with the status, memory, program counter and instruction count of one lane, and every lane ends with that lane's mask bit, predicates, return stack and scalar registers other than S1 |
| BvrtCertificate.UnreadRunsAsOneLane | toolchain/bradvector/bvrt.c:545-570 | from any start in which the lanes agree with one lane outside a set of registers that the program never reads, whole runs agree outside that set |
| BvrtCertificate.LanesStayEqual | toolchain/bradvector/bvrt.c:545-570 | lanes that are equal outside such a set stay so over every run |
| BvrtThread.ManySteps | toolchain/bradvector/bvrt.c:545-570 | straight stretches of a program on one thread are stretches of the device's run |
| BvrtStack.LaunchInStep | toolchain/bradvector/bvrt.c:625-646 | a launch starts with all lanes in step and an empty call stack |
| BvrtStack.ExecuteKeeps | toolchain/bradvector/bvrt.c:433-476 | one instruction keeps the shape of all lanes, and a call pushes, a return pops, nothing else touches the stack |
| BvrtStack.RunKeeps | toolchain/bradvector/bvrt.c:449-476 | over every run with unpredicated calls: the mask is all ones or zero, S0 is 0 in every lane, and all return stacks are the same and at most 16 deep |
| BvrtStack.WholeRunKeeps | toolchain/bradvector/bvrt.c:560-570 | the same of the state in which a whole run ends |
| BvrtStack.ReturnMatchesCall | toolchain/bradvector/bvrt.c:449-473 | each return resumes right after its matching call and restores the stack of before the call |
| BvrtStack.TrapStays | toolchain/bradvector/bvrt.c:44-51 | a trap leaves the program counter on the offending instruction |
| Kernels.CmpBranchSteps | toolchain/bvlibs/kernels/bvml_gemm.bvbs:10-11 | compare-and-branch takes the branch exactly when the words are equal |
| Kernels.WholeRun | toolchain/bradvector/bvrt.c:545-570 | a thread's run up to EXIT is the whole run of a 32-lane launch |
| KernelGemm.Iterate | toolchain/bvlibs/kernels/bvml_gemm.bvbs:9-18 | loop invariant: nine instructions add one product to the accumulator, advance both pointers and count down |
| KernelGemm.Loop | toolchain/bvlibs/kernels/bvml_gemm.bvbs:9-18 | from the loop head to the loop exit, for every k including 0 |
| KernelGemm.GemmLaunch | toolchain/bvlibs/kernels/bvml_gemm.bvbs:5-26 | one launch halts after exactly 9k + 12 instructions, having stored ADD(MUL(fold, alpha), MUL(beta, old)) and touched nothing else |
| KernelDot.DotLaunch | toolchain/bvlibs/kernels/bvml_dot.bvbs:4-22 | one launch halts after exactly 9n + 5 instructions, having stored the fold of multiply-adds and touched nothing else |
| KernelSaxpy.SaxpyLaunch | toolchain/bvlibs/kernels/bvml_saxpy.bvbs:4-24 | one launch halts after exactly 12n + 4 instructions, having stored the n results in order and touched nothing else |
| Bvml.LibraryLoaded | toolchain/bvlibs/src/bvml.c:17-21 | the three assembled kernels lie one after the other and decode to their programs |
| Bvml.Bvml.CopyIn | toolchain/bvlibs/src/bvml.c:82-84 | copying host words into device memory |
| Bvml.Bvml.CopyOut | toolchain/bvlibs/src/bvml.c:95 | copying device words back out, the rest of the host buffer unchanged |
| Bvml.KernelsFound | toolchain/bradvector/bvbc.c:77-83 | the library's three kernels are found under their names, with the entries of their code |
| BvmlOpen.Open | toolchain/bvlibs/src/bvml.c:25-46 | opening assembles the kernels' source and loads it; it fails for a size of 0 alone |
| Bvml.Bvml.Launch1 | toolchain/bvlibs/src/bvml.c:59-65 | an unknown name gives -3 and changes nothing in memory; otherwise the kernel of that name runs within the instruction budget, and the call reports whether it halted |
| Bvml.Bvml.Gemm | toolchain/bvlibs/src/bvml.c:132-177 | for all sizes: return codes (-3 and -4 never occur), and C becomes the result matrix row by row, with nothing else in it changed |
| Bvml.Bvml.Dot | toolchain/bvlibs/src/bvml.c:99-130 | for all sizes: return codes, and the output is the fold over all elements, 0 when there are none |
| Bvml.Bvml.Saxpy | toolchain/bvlibs/src/bvml.c:67-97 | for all sizes: return codes, and the output vector, the rest of the buffer unchanged |
| Bvml.FitsDeviceIff | toolchain/bvlibs/src/bvml.c:25-46 | everything that passes the size test fits the device if and only if at most 64 MiB were requested |
| Bvml.ClampedOverrun | toolchain/bvlibs/src/bvml.c:75-84 | ten million elements pass the test of a 128 MiB context and do not fit its device |
| Bvml.GemmCell | toolchain/bvlibs/src/bvml.c:155-174 | the launch for one cell fits memory and budget and does exactly that cell |
| BvmlSpec.RowsAt | toolchain/bvlibs/src/bvml.c:132-177 | the element at n * r + col of the result is ADD(MUL(sum, alpha), MUL(beta, old)) |
| BvmlLaws.GemmElement | toolchain/bvlibs/src/bvml.c:132-177 | the same of the host buffers: the sum is the last of a chain of multiply-adds of A[r * K + j] and B[j * N + c], j from 0 to K - 1, starting from 0 |
| BvmlLaws.DotElement | toolchain/bvlibs/src/bvml.c:99-130 | the dot product is the last of a chain of multiply-adds of x[j] and y[j], starting from 0 |
| BvmlLaws.ExactDot | toolchain/bvlibs/src/bvml.c:99-130 | and the inner product when the unit is exact on the partial sums |
| BvmlLaws.ExactSaxpy | toolchain/bvlibs/src/bvml.c:67-97 | element i of the SAXPY result is a * x[i] + y[i] when the unit is exact on product and sum |
| BvmlLaws.SizesTested | toolchain/bvlibs/src/bvml.c:75-155 | the ends that the size tests compare, as numbers: every operand begins at a multiple of 16 |
| BvmlSpec.SumOfMemory | toolchain/bvlibs/src/bvml.c:155-168 | the kernel's strided fold over memory is the fold over the operands |
| BvmlSpec.LaunchFits | toolchain/bvlibs/src/bvml.c:8 | whatever passes the size test keeps k at most 8 Mi, so every launch fits its budget and its addresses stay in memory |
| BvmlLaws.ExactCell | toolchain/bvlibs/src/bvml.c:132-177 | if the unit's multiply-add, multiplication and addition are exact on the intermediate results, the element at r * N + c of the matrix that the call leaves is alpha times the inner product of A's row r and B's column c plus beta times the old element |
| BvmlSpec.SaxpyAt | toolchain/bvlibs/src/bvml.c:67-97 | the result vector element by element |
| BradcAssembler.Assembler.CollectLabels | toolchain/bradvector/bradc.c:348-386 | pass 1 in place equals its specification |
| BradcAssembler.Assembler.Run | toolchain/bradvector/bradc.c:337-649 | the two passes in place succeed exactly when the specification does and leave exactly its image |
| BradcProofs.PassesAgree | toolchain/bradvector/bradc.c:348-386 | both passes give every line the same kernel-relative index, which counts the emitted words |
| BradcProofs.SymbolMeaning | toolchain/bradvector/bradc.c:371-381 | a name's table entry is the index of the first line that defines it inside a kernel |
| BradcProofs.BranchGoesTo | toolchain/bradvector/bradc.c:206-230 | every assembled branch to a label decodes to its operation and predicate and runs to its kernel's entry plus the index of the label's first definition |
| BradcProofs.OwnLabelLands | toolchain/bradvector/bradc.c:206-230 | it lands on its own kernel's definition of the label if and only if that one has the same index in its kernel as the first definition in the source |
| BradcProofs.BranchLands | toolchain/bradvector/bradc.c:206-230 | it reaches the label's first definition in the source if and only if that definition's kernel starts where the branch's kernel does |
| BradcProofs.UniqueLabelLands | toolchain/bradvector/bradc.c:206-230 | a label defined once, in the branch's kernel, is where the interpreter goes when the branch is taken, or called with room on the stacks |
| BradcShared.SharedLabelMisses | toolchain/bradvector/bradc.c:371-381 | two kernels that share a label: the second one's branch goes elsewhere |
| BradcOperands.CmpNumberIff | toolchain/bradvector/bradc.c:521-541 | a number in the last place of CMP is dropped: the instruction compares with it if and only if it is 0 |
| BradcOperands.NumberIsRegister | toolchain/bradvector/bradc.c:515-519 | a number as first source is encoded as the register of that number |
| BradcLaws.RegisterIs | toolchain/bradvector/bradc.c:141-161 | S0 to S255, V0 to V63 and P0 to P15 are read, in either case, with one to three digits; any other letter or number is refused |
| BradcLaws.ThreeRegisters | toolchain/bradvector/bradc.c:621-639 | the word, as a number, of every three-register line under any predicate |
| BradcLaws.ThreeRefused | toolchain/bradvector/bradc.c:497-631 | such a line is refused with a number in the last place or a destination of another class |
| BradcLaws.OneSource | toolchain/bradvector/bradc.c:612-619 | the word of every line with one source |
| BradcLaws.Immediate | toolchain/bradvector/bradc.c:597-610 | ADDi: the immediate is the low byte of the number, so the number itself from -128 to 127; anything but a number is refused |
| BradcLaws.Move | toolchain/bradvector/bradc.c:586-595 | MOV is the addition of 0 |
| BradcLaws.Comparison | toolchain/bradvector/bradc.c:521-541 | the word of CMP with two registers |
| BradcLaws.Load | toolchain/bradvector/bradc.c:547-584 | LOAD: destination, base and the low byte of the offset; without an offset it is refused |
| BradcLaws.Store | toolchain/bradvector/bradc.c:547-584 | STORE and STOREV: the value in the place of the destination, the base as first source, and the offset |
| BradcLaws.Bare | toolchain/bradvector/bradc.c:449-456 | RET, EXIT, BAR and TRAP |
| BradcLaws.Asking | toolchain/bradvector/bradc.c:466-480 | LANE_ID, WARP_SZ and CLOCK |
| BradcLaws.NumberedBranch | toolchain/bradvector/bradc.c:206-212 | a branch by a number takes its low byte as the offset |
| BradcLaws.LabelledBranch | toolchain/bradvector/bradc.c:213-230 | a branch to a label gets the first such symbol's index less that of the next instruction, and is refused if there is none or it does not fit a signed byte |
| BradcLaws.LabelAdds | toolchain/bradvector/bradc.c:371-381 | a label line adds a symbol if and only if it stands in a kernel, the name is new and there are fewer than 1024 |
| BradcLaws.LinesCounted | toolchain/bradvector/bradc.c:348-386 | what the other lines do to the count of instructions |
| BradcLaws.KernelOpens | toolchain/bradvector/bradc.c:404-426 | .kernel opens a kernel at the next instruction, and fails inside a kernel or without a name |
| BradcLaws.EndCloses | toolchain/bradvector/bradc.c:397-403 | .end closes a kernel, and fails outside of one |
| BradcLaws.OutsideFails | toolchain/bradvector/bradc.c:191-204 | an instruction outside a kernel fails |
| BradcLaws.VectorLoadRefused | toolchain/bradvector/bradc.c:499-578 | no line with the mnemonic LOADV is accepted |
| BradcLaws.AtomicRefused | toolchain/bradvector/bradc.c:279-312 | no line with the mnemonic ATOMIC_ADD, BFIND or BAR_CLUSTER is accepted |
| BradcLaws.VectorIff | toolchain/bradvector/bradc.c:487-640 | a vector operation on three registers is accepted if and only if its destination is scalar and its last operand a vector register, or scalar for VBROADCAST; and then its word |
| BradcSteps.BlockSteps | toolchain/bradvector/bradc.c:388-640 | a kernel block whose lines spell a program emits that program's words under that name |
| BradcProofs.AssembledRoundTrips | toolchain/bradvector/bradc.c:337-649 | whatever assembles can be packed, and its kernels, words and constant bytes are all found again |
| KernelSource.LibraryAssembles | toolchain/bvlibs/src/bvml.c:17-46 | the source text of the three kernels assembles to exactly the code and entries that the host calls run |
| KernelSource.GemmSpells | toolchain/bvlibs/kernels/bvml_gemm.bvbs:5-26 | every line of the GEMM kernel's text parses to the instruction at its index |
| KernelSource.DotSpells | toolchain/bvlibs/kernels/bvml_dot.bvbs:4-22 | every line of the dot kernel's text parses to the instruction at its index |
| KernelSource.SaxpySpells | toolchain/bvlibs/kernels/bvml_saxpy.bvbs:4-24 | every line of the SAXPY kernel's text parses to the instruction at its index |
| KernelSource.DigitsOfDec | toolchain/bradvector/bradc.c:141-161 | register numbers written in decimal are read back |
| KernelInteger.SaxpyOnAllLanes | toolchain/wasm/wasm_bridge.c:123-157 | the demonstration kernel on all 32 lanes: exactly ten instructions, every y[l] becomes a * x[l] + y[l] modulo 2^32 however the vectors overlap, and nothing else changes |
| KernelDemo.DemoAssembles | toolchain/wasm/wasm_bridge.c:83-96 | its text assembles to that program under its name |
| KernelDemo.TextRuns | toolchain/wasm/wasm_bridge.c:83-157 | from the text to memory: assembling it and launching what that gives does so |
| BvbcFile.ImageFile.AddKernel | toolchain/bradvector/bvbc.c:46-67 | adds a kernel and its name, or reports failure and changes nothing |
| BvbcFile.ImageFile.Emit | toolchain/bradvector/bvbc.c:69-75 | appends an instruction word, or reports that the stream is full |
| BvbcFile.ImageFile.FindKernel | toolchain/bradvector/bvbc.c:77-83 | the first kernel of that name, if any |
| BvbcFile.ImageFile.NameOffset | toolchain/bradvector/bvbc.c:95-101 | where a kernel's name begins in the pool |
| BvbcFile.ImageFile.Pack | toolchain/bradvector/bvbc.c:115-151 | writes exactly the packed form and nothing past it, or nothing at all |
| BvbcFile.Unpack | toolchain/bradvector/bvbc.c:153-217 | parses any bytes, equal to the specification, with every index inside the buffer |
| Bvbc.AddKernelKeeps | toolchain/bradvector/bvbc.c:46-67 | adding a kernel keeps an image well formed |
| BvbcLayout.AddKernelIff | toolchain/bradvector/bvbc.c:46-67 | a kernel is added if and only if there are fewer than 256, its name has 1 to 63 bytes and fits the 4096 bytes of names |
| BvbcLayout.EmitIff | toolchain/bradvector/bvbc.c:69-75 | an instruction is added if and only if there are fewer than 65536 |
| BvbcLayout.HeaderLayout | toolchain/bradvector/bvbc.c:125-131 | the packed header byte by byte: BVBC0001, version 1, and the counts at 16, 20 and 24 |
| BvbcLayout.EntryLayout | toolchain/bradvector/bvbc.c:133-139 | entry i of the kernel table: where its NUL-terminated name is, eight times the entry, the argument count and 0 |
| BvbcLayout.NamesInOrder | toolchain/bradvector/bvbc.c:95-101 | the first name begins at 0, every other one behind the one before it |
| BvbcLayout.RegionsLayout | toolchain/bradvector/bvbc.c:141-149 | the constants follow the names, and the instruction words the constants, the lowest byte first |
| BvbcLayout.AcceptedIff | toolchain/bradvector/bvbc.c:153-217 | exactly which buffers are accepted, and what is handed out for them, in terms of their bytes |
| Bvbc.Asked32Iff | toolchain/bradvector/bvbc.c:174-177 | with a 32-bit size_t the length test is right if and only if the sum does not wrap or wraps past the buffer |
| Bvbc.Asked32Misses | toolchain/bradvector/bvbc.c:174-177 | a bare header that names a constant region of 2^32 - 32 bytes passes there |
| BvbcRoundTrip.RoundTrip | toolchain/bradvector/bvbc.c:115-217 | a packed image parses to the same names, argument counts, instruction words and constant bytes, and to the entries modulo 2^29; the count of constants is the matter of `ConstantCountIff` |
| BvbcRoundTrip.RoundTripIff | toolchain/bradvector/bvbc.c:135 | the kernel table survives if and only if every entry is below 2^29 |
| BvbcRoundTrip.RecoveredIff | toolchain/bradvector/bvbc.c:115-217 | kernels, words and constant bytes are all found again if and only if every entry is below 2^29 and the constant region below 2^32 |
| BvbcRoundTrip.ConstantCountIff | toolchain/bradvector/bvbc.c:179-183 | the parsed count of constants is that of names and constants together, and so comes back if and only if there are no kernels |
| BvbcRoundTrip.LosslessIff | toolchain/bradvector/bvbc.c:115-217 | everything, the count included, comes back if and only if there are no kernels and the constants stay below 2^32 bytes |
| BvbcRoundTrip.NameIsCounted | toolchain/bradvector/bvbc.c:179-183 | one kernel named "a" and no constants: two constants are counted |
| BvbcRoundTrip.LargeEntryIsLost | toolchain/bradvector/bvbc.c:135 | a kernel with entry 2^29 comes back with entry 0 |
| BvbcRepack.ReopenFitsIff | toolchain/bradvector/bvbc.c:207-217 | the constants of a parsed image, as long as it says, lie inside the buffer if and only if the names are no longer than the instruction stream |
| BvbcRepack.RepackedBytes | toolchain/bradvector/bvbc.c:115-217 | packing a parsed image again gives the same header, table and stream, around the constants and the beginning of the stream instead of the names and the constants |
| BvbcRepack.RepackIff | toolchain/bradvector/bvbc.c:115-217 | that gives the same bytes if and only if names and constants read as what follows the names |
| BvbcRepack.RepackWithoutKernels | toolchain/bradvector/bvbc.c:115-217 | without kernels it always does |
| BvbcRepack.NameIsOverwritten | toolchain/bradvector/bvbc.c:115-217 | with one kernel named "a" and one instruction it does only if that instruction begins with the bytes of the name |
| BvbcRoundTrip.PrefixRefused | toolchain/bradvector/bvbc.c:153-177 | every strict prefix of a packed image is refused |
| BvbcRoundTrip.ParsedInBounds | toolchain/bradvector/bvbc.c:153-217 | whatever is accepted, the regions handed out lie inside the buffer and names are short C strings |
| Observers.Debugger.AddBreak | toolchain/bradvector/bradgdb.c:16-28 | one breakpoint per address, up to the table size |
| Observers.Debugger.EnableBreak | toolchain/bradvector/bradgdb.c:30-34 | sets one breakpoint's flag, and nothing for an unknown id |
| Observers.Debugger.AtBreakpoint | toolchain/bradvector/bradgdb.c:36-42 | finds an enabled breakpoint at an address exactly when there is one |
| Observers.Debugger.Continue | toolchain/bradvector/bradgdb.c:60-77 | takes plain steps, none from an enabled breakpoint, and stops where plain stepping is |
| Observers.Timeline.Retire | toolchain/bradvector/bradtimeline.c:31-59 | steps the device as a plain step does and records what was stepped |
| Observers.Timeline.RunTraced | toolchain/bradvector/bradtimeline.c:68-78 | the device ends as after a plain run of the remaining budget, the new events are those of its steps, and the status differs exactly for a run that halts where one instruction less would time out |
| Observers.LastInstructionHalts | toolchain/bradvector/bradtimeline.c:68-78 | a program of one EXIT with a budget of one instruction is such a run |
| Observers.HistogramTotal | toolchain/bradvector/bradtimeline.c:46-52 | the histogram adds up to the number of recorded events |
| Observers.TallyIs | toolchain/bradvector/bradtimeline.c:45-52 | entry op of the histogram is the number of recorded events with that operation |
| Observers.OpAtIs | toolchain/bradvector/bradtimeline.c:48-50 | the recorded operation is the highest byte of the instruction word, or 255 outside the code |
| Observers.CountTrueIs | toolchain/bradvector/bradtimeline.c:21-28 | the recorded lane count is the number of active lanes |
| WasmShim.Udivmod | toolchain/wasm/wasm_shim.c:468-477 | exact quotient and remainder for every 64-bit dividend and nonzero divisor; all ones and the dividend for divisor 0 |
| WasmShim.ShiftFits | toolchain/wasm/wasm_shim.c:468-477 | the running remainder is below 2^63, so the 64-bit shift loses nothing |
| WasmShim.Divdi3 | toolchain/wasm/wasm_shim.c:481-488 | the quotient truncated toward zero, wrapped to 64 bits; for divisor 0, -1 or 1 by the dividend's sign |
| WasmShim.Moddi3 | toolchain/wasm/wasm_shim.c:489-495 | the remainder with the dividend's sign; for divisor 0, the dividend |
| WasmShim.TruncationLaw | toolchain/wasm/wasm_shim.c:481-495 | quotient and remainder satisfy section 6.5.5 of ISO/IEC 9899:2011 |
| WasmShim.QuotientExactIff | toolchain/wasm/wasm_shim.c:481-488 | the wrapped quotient is exact in every case but the one that overflows |
| WasmLaws.WrappedIs | toolchain/wasm/wasm_shim.c:481-488 | what wrapping means: the number in the signed 64-bit range that differs by a multiple of 2^64 |
| WasmShim.Memmove | toolchain/wasm/wasm_shim.c:139-150 | whatever the overlap, the old source bytes arrive and nothing else changes |
| WasmNumbers.Ufmt | toolchain/wasm/wasm_shim.c:321-331 | writes the digits of the number and nothing past them, within the scratch buffer |
| WasmNumbers.RenderLength | toolchain/wasm/wasm_shim.c:321-331 | at most 22 digits are needed from base 8 on |
| WasmLaws.RenderIs | toolchain/wasm/wasm_shim.c:321-331 | character k from the right is the hexadecimal digit for v / base^k % base, and the first one is not 0 unless the number is |
| WasmNumbers.RunStrtol | toolchain/wasm/wasm_shim.c:252-282 | the parsing loops equal the specification: value and end position |
| WasmLaws.ScanIs | toolchain/wasm/wasm_shim.c:268-276 | scanning digits gives the sum of each times the power of its place, modulo the size of a long |
| WasmLaws.StrtolIs | toolchain/wasm/wasm_shim.c:252-282 | for any text of blanks, sign, prefix, digits and a rest: the signed value cut to a long, and the end of the digits; 0 and the beginning without digits |
| WasmNumbers.ParseUndoesPrint | toolchain/wasm/wasm_shim.c:252-331 | parsing reads back every printed value up to the largest long, in bases 8 to 16, and with the base guessed for decimal |
| WasmNumbers.ParseUndoesNegative | toolchain/wasm/wasm_shim.c:252-331 | with a minus sign in front the negative value is read, down to the smallest long |

## Left out

- BvrtDevice.BvrtDevice.ExecuteInsn: leaves out the vector, gather and random-number instructions (`LOADV`, `STOREV`, `VADD` and relatives, `RAND`): the model stops with its own status on them.
- Predicate register indices past 15, which the source reads beyond the register file: the model reads 0 there.
- What an access reads or overwrites where the wrapped bounds test lets it through, at the last four addresses before 2^64 in the interpreter and before 2^32 in the emulator: the models read 0, so that a fetch there runs a word of zeros, and write nothing.
- Byte counts of host buffers that wrap at 2^64, and failing host allocations in `bvcomm_init` and `bvml_open`.
- Observers.Debugger.Continue: takes a bound on the number of steps, because the source's loop need not end; tracing output is not modelled.
- Null pointers and calls before initialisation, except where the host calls test for them.
- Character-level lexing in the assembler: source is lines of tokens, identifiers have at most 63 characters, comments are gone, and error messages and line numbers are not modelled.
- KernelSource.LibraryAssembles: writes the kernels' text as tokens, one line of tokens for each line of text.
- The spinlock, atomics and bandwidth queries of the fabric, and sends on channels other than open or closed ones: the fabric is sequential.
- Bvcomm.World.AllReduceSum: like the other collectives, `Bvcomm.Init` and `Fabric.FabricState.Dma`, leaves out inputs whose wrapped sums pass the source's tests, where the source reads or writes past its buffers.
- Fabric.FabricState.Dma: leaves out accepted regions that run past a memory shorter than its window, as `Fabric.StaysIff` characterises them.
- Bvml.Bvml.Gemm: like `Dot` and `Saxpy`, leaves out operands that pass the size test of a context above 64 MiB and overrun its device.
- Several pools, encryption flags, the map table and prefetching in the allocator: one pool is modelled.
- SpmpRuns.CreateEstablishesInv: assumes addresses below 2^63, so that rounding up cannot wrap.
- BradEmulator.CoreState.FetchInsn: leaves out the compressed fetch path.
- The emulator's energy counters and model-specific registers.
- BvbcRepack.RepackIff: leaves out parsed images whose constants run past the buffer, as `ReopenFitsIff` characterises them; packing them again reads what lies behind it.
- BvbcFile.Unpack: takes `size_t` to have 64 bits; `Bvbc.Asked32Iff` says when its length test is right on 32.
- The standalone assembler in `toolchain/asm`, the cache emulator, sensors, device drivers, RTL, the HTTP server, the command-line tools, and the web bridge apart from its kernel.
- Elementary functions and floating-point formatting of the freestanding runtime, and its string functions.
