# Verification of the TRCH firmware cores

Dafny models of six parts of the firmware, each proved against a specification of what it is for.
Every module corresponds to a source file or to one layer of it.

**DMA microcode compiler** (`drivers/dma.c`). `DmaInstr` gives the instructions and their byte
encodings (ARM CoreLink DMA-330 TRM, chapter 4), `DmaProgram` the program a request denotes,
`DmaMachine` a step model of a channel with memory and a peripheral, `DmaCorrect` the proof that
the program copies, `DmaDevice` the same for transfers to and from a peripheral. `DmaCompiler`
holds the emitters as methods that write a byte array in place, with the dry run, and
`DmaTransfer` the control word and the transfer call. For overlapping regions the exact condition
is proved: the copy is right for every memory if and only if the destination does not start
strictly inside the source, or the request is a single burst.

**Block allocator** (`lib/balloc.c`). `Balloc` proves that free and live blocks tile the arena
after every operation, when an allocation or a free fails, and for which sizes the 32-bit sum of
size and padding is safe: exactly up to 2^32.

**SMMU page tables** (`drivers/mmu.c`). `MmuGeometry` is the level arithmetic of the three
granules (ARM DDI0487C, chapter D4). `MmuTree`, `MmuMap`, `MmuRefine`, `MmuOverlap`, `MmuTables`,
`MmuExact`, `MmuUnmap`, `MmuAbsent`, `MmuRestore`, `MmuFree` and `MmuRun` treat page tables as
trees whose nodes carry their addresses: what a map and an unmap do to translations, to the tables
in use and to the allocator, for one call and for every run. `MmuTables` counts the tables a call
needs and from that decides its result code. `MmuMemory`, `MmuSteps`, `MmuContext` and
`MmuHardware` put the trees into memory as 64-bit descriptors: the driver's loops write single
descriptors and are proved to leave the memory of the specified tree, and a table walker reads the
same translations from it. Two places deserve notice. A smaller mapping laid over a larger block
is not refused but silently replaces the whole block, although the comment at
`drivers/mmu.c:444-446` rules it out; `MmuOverlap.KeepsOthersExact` says exactly when, and
`MmuReplaced` gives a run. And an address is translated as asked only if every piece is physically
aligned, which the driver does not check; `MmuExact.TranslationExact` says exactly when.

**Hamming ECC** (`lib/ecc.c`). `EccTables` holds the three tables and proves what they hold,
`EccParity` and `EccDecode` the code as a linear function and its decoder, `EccWords` and
`EccLanes` the word-at-a-time accumulation, `Ecc` the two calls, `EccFaults` single-error
correction and double-error detection over data and stored code together. Blocks of up to 512
bytes; a block of exactly 256 bytes takes the 512-byte path, as in the source. For a block that
needs padding the repair can write behind the caller's buffer; `EccFaults.OutOfBoundsExact` says
exactly when, and one or two flipped bits never cause it.

**SHA-256 and SHA-224** (`lib/sha256.c`). `Sha256Spec` is FIPS 180-2, tied to the standard by
`Sha256Constants`, which derives the constants from roots of primes, and by `Sha256Example`, its
first worked example. `Sha256Block` is the unrolled block function, `Sha256` the streaming
context. A message of 2^61 bytes or more has its bit length reduced modulo 2^64, as the source
does; the standard does not define that case.

**Handshakes**. `ShmemLink` and `Shmem` (`lib/shmem-link.c`, `lib/shmem.c`): two processors share
a data area and a status word that both update by load and store; all interleavings of single
accesses are covered. `MailboxLink` and `Mailbox` (`lib/mailbox-link.c`, `drivers/mailbox.c`):
data registers, two event latches, a thread and two interrupt handlers. For both the boundary is
proved as well: with timeouts an acknowledgement can be taken for the wrong send, and with the RCV
and ACK events handled in the other order a message is lost.

`Words`, `Arith` and `Bits` hold machine words, the little non-linear arithmetic needed, and the
alignment macros of `lib/bit.h`.

## Model

| member | source | states |
|---|---|---|
| DmaInstr.DecodeEncode | drivers/dma.c:545-848 | What each emitter writes is decoded by the controller as that instruction with those operands, at any place in any program |
| DmaInstr.Le32Inverse | drivers/dma.c:488-495 | Storing a word low byte first and reading it back gives the word |
| DmaProgram.ByteToBurstExact | drivers/dma.c:235-239 | For a whole number of bursts, the two truncating divisions give the exact burst count |
| DmaProgram.ChooseNest | drivers/dma.c:1090-1126 | A chosen loop nest has counts 1..256, a body whose backward jumps fit 8 bits, and between 1 and all of the requested bursts |
| DmaProgram.CycMax | drivers/dma.c:1119-1126 | The unroll limit leaves room for every loop instruction inside a 255-byte jump and is at least 35 |
| DmaProgram.Consumed | drivers/dma.c:1080-1159 | One loop segment disposes of at least one and at most the requested bursts |
| DmaProgram.AtMostThreeSegments | drivers/dma.c:1161-1177 | Below 65536*(cycmax+1) bursts at most three loop segments are generated |
| DmaProgram.ShortCode | drivers/dma.c:1161-1177 | Fewer than 65536 bursts need at most 20 bytes of loop code |
| DmaMachine.HaltUnique | drivers/dma.c:545-555 | A program has at most one halting state, so what it does is determined |
| DmaMachine.OneBurstRuns | drivers/dma.c:982-1004 | The code of one burst does exactly what one burst of its kind is to do: memory to memory, to a peripheral, or from one, on hardware that needs the barriers as on hardware that does not |
| DmaMachine.InnerRuns | drivers/dma.c:1135-1144 | The inner loop executes its body exactly count times, backward jump included |
| DmaMachine.OuterRuns | drivers/dma.c:1130-1152 | The outer loop executes the inner loop, counter reload included, exactly count times |
| DmaMachine.NestRuns | drivers/dma.c:1080-1159 | A loop nest executes exactly the load/store pairs it claims to consume |
| DmaMachine.LoopsRun | drivers/dma.c:1161-1177 | All segments together execute every burst once and end right behind their code |
| DmaCorrect.RequestRuns | drivers/dma.c:1197-1224 | The microcode of any memory-to-memory request, barriers included where the hardware locks up without them, halts at DMAEND with memory after exactly bytes/burst bursts, the FIFO empty, the control word as asked and the event signalled once |
| DmaCorrect.CompilerCorrect | drivers/dma.c:982-1224 | Compiler correctness: the microcode halts with [dst, dst+bytes) equal to the old [src, src+bytes), nothing else written, and the event signalled exactly once |
| DmaCorrect.OverlapExact | drivers/dma.c:982-1224 | Copying burst by burst is a copy for every memory exactly when dst <= src, or the regions are disjoint, or the request is a single burst |
| DmaCorrect.SafeCopy | drivers/dma.c:982-1004 | Under that condition every destination byte receives the original source byte |
| DmaCorrect.UnsafeCopy | drivers/dma.c:982-1004 | Outside it, a memory on which the result is wrong |
| DmaDevice.DeviceCorrect | drivers/dma.c:1006-1078 | The same for a peripheral: with one-beat bursts, or requests of whole bursts, it is given exactly the old source bytes in order, or the destination holds exactly the bytes it delivered, and the event is signalled once |
| DmaDevice.UnbalancedFails | drivers/dma.c:1006-1054 | Otherwise, single requests with bursts of several beats, the first burst already goes wrong |
| DmaCompiler.EmitLP | drivers/dma.c:612-629 | The count byte is the count minus one in 8 bits, so 256 is written as 255 |
| DmaCompiler.EmitLPEND | drivers/dma.c:638-671 | Writes the finite loop end with its backward distance; a dry run writes nothing and returns the same size |
| DmaCompiler.EmitMOV | drivers/dma.c:683-697 | Writes the register move; a dry run writes nothing and returns the same size |
| DmaCompiler.EmitLD | drivers/dma.c:573-589 | Writes the load for each condition |
| DmaCompiler.EmitST | drivers/dma.c:739-755 | Writes the store for each condition |
| DmaCompiler.EmitLDP | drivers/dma.c:591-610 | Writes the peripheral load, peripheral number cut to five bits |
| DmaCompiler.EmitSTP | drivers/dma.c:757-776 | Writes the peripheral store, peripheral number cut to five bits |
| DmaCompiler.EmitWFP | drivers/dma.c:811-834 | Writes the wait for a peripheral |
| DmaCompiler.EmitFLUSHP | drivers/dma.c:557-571 | Writes the peripheral flush |
| DmaCompiler.EmitSEV | drivers/dma.c:723-737 | Writes the event, cut to five bits |
| DmaCompiler.EmitRMB | drivers/dma.c:711-721 | Writes the read barrier |
| DmaCompiler.EmitWMB | drivers/dma.c:836-846 | Writes the write barrier |
| DmaCompiler.EmitEND | drivers/dma.c:545-555 | Writes the end |
| DmaCompiler.EmitMemToMem | drivers/dma.c:982-1004 | One memory-to-memory burst in the form its revision needs |
| DmaCompiler.EmitMemToDev | drivers/dma.c:1031-1054 | One burst to a peripheral, with the flush unless the quirk forbids it |
| DmaCompiler.EmitDevToMem | drivers/dma.c:1006-1029 | One burst from a peripheral, with the flush unless the quirk forbids it |
| DmaCompiler.Bursts | drivers/dma.c:1056-1078 | The unrolled bursts are written in place and nothing else; the dry run returns the same length |
| DmaCompiler.InnerLoop | drivers/dma.c:1135-1144 | The single loop written in place is the loop the proofs run |
| DmaCompiler.DoubleLoop | drivers/dma.c:1130-1152 | The double loop written in place is the nest the proofs run |
| DmaCompiler.Loop | drivers/dma.c:1080-1159 | Writes the chosen segment and reports the bursts it consumed |
| DmaCompiler.SetupLoops | drivers/dma.c:1161-1177 | Terminates; the consumed bursts add up to BYTE_TO_BURST and the segments are written one behind the other |
| DmaCompiler.SetupXfer | drivers/dma.c:1179-1195 | Addresses and loops, written contiguously; dry and real run agree on the length |
| DmaCompiler.SetupReq | drivers/dma.c:1197-1224 | Dry and real run return the same length and the real run writes only that many bytes; a length that is no multiple of the burst is refused after the first move |
| DmaTransfer.PreparedCopies | drivers/dma.c:1226-1256 | The control word describes plain copying exactly when both addresses increment and nothing is swapped; its burst is 2^size times the length |
| DmaTransfer.PreparedFields | drivers/dma.c:1226-1256 | The controller reads back from the word every field as configured, on both sides: increment, burst size and length, privilege, security, instruction access, cache control, and the swap |
| DmaTransfer.TransferCcr | drivers/dma.c:1426-1448 | The fixed configuration of a transfer copies in 256-byte bursts, the alignment the caller is asked for, with privileged secure data accesses on both sides |
| DmaTransfer.Controller.Transfer | drivers/dma.c:1373-1493 | A request is accepted exactly when aligned, its channel free, an object left and its whole program no longer than half the channel buffer; then that half holds the program and nothing beyond it is written |
| DmaTransfer.TransferCopies | drivers/dma.c:1373-1493 | End to end: the program an accepted transfer leaves in memory copies the region, by privileged secure accesses |
| DmaTransfer.SmallRequestsFit | drivers/dma.c:1456-1469 | Requests below 16 MiB are never refused for size |
| Balloc.Padding | lib/balloc.c:15-17 | Adding the padding aligns, with less than one alignment unit |
| Balloc.AllocSafe | lib/balloc.c:64-137 | A grant is aligned, inside the arena, disjoint from every live block, and keeps free and live blocks an exact tiling of the arena |
| Balloc.AllocFails | lib/balloc.c:76-104 | An allocation fails exactly when no free block holds the request after padding, or only misaligned ones do and every slot is in use; the table is then unchanged |
| Balloc.FreeSafe | lib/balloc.c:139-176 | Freeing a live block keeps the tiling; it fails exactly when all slots are used and no free block starts where it ends |
| Balloc.FreeExact | lib/balloc.c:149-173 | What the table is after a free: merged with the free block behind when that one comes before every unused slot, in the first unused slot otherwise |
| Balloc.AllocAligned | lib/balloc.c:76-80 | First fit: the first aligned block large enough is cut at its front, or used up |
| Balloc.AllocPadded | lib/balloc.c:83-133 | Without one, the first block large enough after padding is split in its slot and the rest behind the grant goes to the first unused slot |
| Balloc.FreeUndoesAlloc | lib/balloc.c:64-176 | Giving back what was just taken off a larger aligned block, with no unused slot before it, restores the table exactly |
| Balloc.SplitTiles | lib/balloc.c:94-120 | The alignment split keeps the tiling |
| Balloc.TakeTiles | lib/balloc.c:122-133 | Taking bytes off a block, exhausting it or not, keeps the tiling with the new block live |
| Balloc.MergeTiles | lib/balloc.c:153-171 | Coalescing in front of a free block, or using an unused slot, keeps the tiling |
| Balloc.SafetyExact | lib/balloc.c:84-87 | For every alignment up to 2^31, every grant stays inside every arena exactly when size plus alignment is at most 2^32; beyond, the 32-bit sum wraps |
| Balloc.WrappingGrant | lib/balloc.c:84-87 | For each size beyond that, an arena on which the grant leaves it |
| Balloc.FreeUsesOneSlot | lib/balloc.c:139-176 | With an unused slot a free succeeds and uses at most one |
| Balloc.RoomSuffices | lib/balloc.c:64-137 | A free block with room for n requests after padding and n spare slots are enough for n allocations, wherever first fit serves them from |
| Balloc.Pool.TakeSafe | lib/balloc.c:64-137 | Allocation as a step on the whole allocator state keeps it valid and only adds the granted block |
| Balloc.Pool.GiveSafe | lib/balloc.c:139-176 | Release as a step keeps it valid and only removes the returned block |
| Balloc.Allocator.constructor | lib/balloc.c:41-55 | A new allocator is one free block, tiling its arena |
| Balloc.Allocator.FindAligned | lib/balloc.c:76-80 | The first search finds the first fitting aligned block |
| Balloc.Allocator.FindPadded | lib/balloc.c:83-87 | The second search finds the first block that fits after padding |
| Balloc.Allocator.Select | lib/balloc.c:76-120 | The slot served from, after splitting in place when needed |
| Balloc.Allocator.Allocate | lib/balloc.c:64-137 | The method on the table in place leaves the specified state; valid requests keep the allocator valid and return aligned, fresh addresses |
| Balloc.Allocator.Release | lib/balloc.c:139-176 | The method on the table in place leaves the specified table for any address, checked or not; giving back a live block keeps the allocator valid, coalescing as `Balloc.FreeExact` says |
| Balloc.RunsTile | lib/balloc.c:64-176 | After every sequence of allocations and releases free and live blocks tile the arena exactly |
| Bits.AlignedIsMultiple | lib/bit.h:12-15 | The alignment test accepts exactly the 32-bit multiples, wrap-around included |
| MmuGeometry.GranulesKnown | drivers/mmu.c:110-144 | For all three granules tables cover the block above, fill one page below the root, and block sizes divide the address space |
| MmuGeometry.PathIsBlock | drivers/mmu.c:179-181 | Addresses below 2^32 sharing all table indices down to a level with a block start are exactly that block |
| MmuGeometry.BlockNumber | drivers/mmu.c:311-322 | Index bits of successive levels put together are the block number |
| MmuTree.LookupSet | drivers/mmu.c:450-456 | A descriptor write changes lookups exactly on the addresses of its path |
| MmuTree.SetEntryBlocks | drivers/mmu.c:426-433 | A descriptor write exchanges exactly the tables of the old and new entry and shares none |
| MmuTree.SameMapsSameTree | drivers/mmu.c:544-581 | A tree without unused tables that extends another and maps nothing more is that other tree |
| MmuTree.NonEmptyMaps | drivers/mmu.c:560-569 | A table in use maps some address of the range it covers |
| MmuMap.NewTable | drivers/mmu.c:183-205 | A new table is an aligned, fresh block of invalid descriptors; failure changes nothing |
| MmuMap.GrowLookup | drivers/mmu.c:403-438 | Linking missing tables changes no lookup unless a larger block is in the way |
| MmuMap.GrowBlocks | drivers/mmu.c:403-438 | Linked tables occupy exactly the blocks newly allocated, and nothing becomes shared |
| MmuMap.GrowEntry | drivers/mmu.c:426-433 | Linking leaves the old descriptor at the end of the path, or an invalid one in a new table |
| MmuMap.FillPruned | drivers/mmu.c:426-456 | Linking and then filling the descriptor leaves no table unused |
| MmuMap.FreeChunk | drivers/mmu.c:440-448 | Where the path exists, the descriptor of a piece is invalid exactly when no address of the piece is mapped |
| MmuMap.ChunkLevel | drivers/mmu.c:413-418 | The chosen level is aligned and no larger than what is left |
| MmuOverlap.GrowExact | drivers/mmu.c:420-433 | Linking through a larger block loses every address of that block and changes no other lookup |
| MmuOverlap.CallLookups | drivers/mmu.c:397-463 | Every address after a whole successful call over anything: the region as asked, lost if in a larger block that some piece met, else as before |
| MmuOverlap.SticksOut | drivers/mmu.c:413-463 | A larger block met by a piece always has addresses outside the region |
| MmuOverlap.KeepsOthersExact | drivers/mmu.c:397-448 | A successful call keeps all other translations exactly when none of its pieces meets a larger block; the comment at 444-446 promises more |
| MmuTables.GrowTakes | drivers/mmu.c:397-438 | Linking for one piece succeeds exactly when the tables missing on its path can be allocated, one allocation each |
| MmuTables.PieceOutcome | drivers/mmu.c:397-456 | One piece: out of tables, overlap or entered, decided by the missing tables and by what is mapped at its level or deeper |
| MmuTables.PlacesAfter | drivers/mmu.c:426-433 | A later piece misses the tables it missed before, except those just linked |
| MmuTables.OutcomeExact | drivers/mmu.c:376-470 | The result of every call, decided before it: out of tables exactly when those missing up to the first collision cannot be allocated, otherwise an overlap exactly when some piece collides, otherwise success |
| MmuTables.MapExact | drivers/mmu.c:376-470 | Mapping an unmapped region succeeds exactly when the missing tables can be allocated, and then adds exactly the requested translations, one new live block per missing table, and keeps the tree free of sharing and of unused tables |
| MmuTables.NeedsAreFew | drivers/mmu.c:397-463 | However large the region, two tables per level below the root are enough |
| MmuTables.MapSucceeds | drivers/mmu.c:376-470 | With room for two pages per level in one free block, and spare slots, a map of any unmapped region returns 0 |
| MmuReplaced.BlockReplaced | drivers/mmu.c:420-448 | From any fresh 4K context with eight pages to spare: 2 MiB mapped at 0, then 4 KiB at 0, both succeed and 0x1000 is no longer translated |
| MmuReplaced.FreshContext | lib/balloc.c:41-137 | Such contexts exist: one MiB of table memory after the root table was allocated |
| MmuReplaced.SilentLoss | drivers/mmu.c:376-470 | The loss happens, from nothing |
| MmuExact.TranslationExact | drivers/mmu.c:413-463 | Every address of a region gets p plus its offset exactly when each piece is physically aligned to its block |
| MmuExact.MapTranslates | drivers/mmu.c:376-470 | With tables enough, a map of a congruent unmapped region succeeds and the translation is p+k at v+k and unchanged elsewhere |
| MmuUnmap.PruneLookup | drivers/mmu.c:544-581 | Unlinking empty tables changes no lookup |
| MmuUnmap.PruneIsPruned | drivers/mmu.c:544-581 | After the backwards walk no table is unused |
| MmuUnmap.PruneBlocks | drivers/mmu.c:544-581 | The walk unlinks as many blocks as it frees tables |
| MmuUnmap.BackWalkBlocks | drivers/mmu.c:544-581 | Blocks given back are exactly those of the tables unlinked, and all others stay live |
| MmuUnmap.BackWalkSucceeds | drivers/mmu.c:578-580 | With as many unused slots as frees no free fails |
| MmuUnmap.ClearedExtends | drivers/mmu.c:540 | Clearing a descriptor that a smaller tree lacks leaves an extension of it |
| MmuAbsent.PieceExact | drivers/mmu.c:494-585 | Removing a piece of anything is refused, with nothing changed, exactly when nothing of it is mapped at its level or deeper; otherwise exactly the piece is unmapped, and a slot per table is enough for no free to fail |
| MmuAbsent.UnmapExact | drivers/mmu.c:472-590 | The result of every call, decided before it: with a slot per table, success exactly when every piece is there, and exactly the pieces before the first missing one are gone; success always means all of them were there and are gone |
| MmuRestore.PieceRemoved | drivers/mmu.c:492-585 | Removing a piece mapped as one block unmaps exactly it and gives back exactly its unused tables |
| MmuRestore.UnmapRefines | drivers/mmu.c:472-590 | Unmapping a mapped region splits it as the map did, never misses a piece, and unmaps exactly the region |
| MmuRestore.UnmapRestores | drivers/mmu.c:376-590 | With tables enough the map succeeds; unmap after it finds every piece, on success the old tree and the old set of live blocks are back, and success is certain with a slot per added table |
| MmuRun.MapKeepsSound | drivers/mmu.c:376-470 | A map of anything, failing or not, keeps tables unshared and in live blocks and touches no other block |
| MmuRun.UnmapKeepsSound | drivers/mmu.c:472-590 | An unmap of anything, failing or not, does the same |
| MmuRun.StepRuns | drivers/mmu.c:376-590 | One successful map of a separate region or unmap of a mapped one keeps the run invariant |
| MmuRun.CanMap | drivers/mmu.c:376-470 | In a run, a region apart from the mapped ones can be mapped exactly when there are tables enough |
| MmuRun.RunsAreSound | drivers/mmu.c:376-590 | Over every run: tree without sharing in disjoint live blocks, every table below the root in use, exactly the mapped regions translated |
| MmuRun.RunsConserve | drivers/mmu.c:376-590 | When everything is unmapped, in any order, the root is as created and the same blocks are live |
| MmuFree.FreesEachOnce | drivers/mmu.c:207-231 | Freeing a subtree gives back each of its tables exactly once and nothing else |
| MmuMemory.DecodeEnc | drivers/mmu.c:81-82 | Reading a descriptor back gives its validity, its kind, the table pointer or output address it was made from, and for blocks and pages the attributes of data: access flag set, read and write at both exception levels, never executable |
| MmuMemory.HwWalkIsLookup | drivers/mmu.c:420-424 | A table walk that faults without the access flag, without permission to read and write, or under a restricting table descriptor reaches exactly what the tree holds |
| MmuMemory.HwFindIsLookup | drivers/mmu.c:450-456 | Every block or page descriptor such a walk finds has the attributes of data and the address the tree has |
| MmuMemory.RepWrite | drivers/mmu.c:428-456 | One 64-bit store in memory is one descriptor of the tree and disturbs no other table |
| MmuMemory.RepFrame | drivers/mmu.c:199-200 | Stores outside a tree leave it intact |
| MmuSteps.GrowStep | drivers/mmu.c:426-437 | Linking one table leaves the same linking to be done below it |
| MmuSteps.BackStep | drivers/mmu.c:545-581 | One round of the backwards walk |
| MmuSteps.LinkTable | drivers/mmu.c:426-433 | Clearing a fresh table and storing the pointer keeps memory and tree in step |
| MmuSteps.Unlink | drivers/mmu.c:571-580 | Storing the invalid descriptor and giving the block back keeps memory and tree in step |
| MmuHardware.MapOnHardware | drivers/mmu.c:376-470 | With tables enough the map succeeds and in memory, as the walker reads it with its access checks, leaves p+k at v+k and everything else as before |
| MmuHardware.UnmapOnHardware | drivers/mmu.c:472-590 | The unmap after it succeeds with a free slot per added table, and whenever it does the walker translates as before the map |
| MmuHardware.MapLeavesOthers | drivers/mmu.c:376-470 | A map in one context, whatever its outcome, leaves the tables of every other context on the same allocator and memory intact |
| MmuHardware.UnmapLeavesOthers | drivers/mmu.c:472-590 | So does an unmap |
| MmuSteps.StoreInside | drivers/mmu.c:428-450 | A descriptor store touches only the blocks of its own tree |
| MmuContext.Context.PtAlloc | drivers/mmu.c:183-205 | A table allocated and cleared in memory, nothing else stored |
| MmuContext.Context.Create | drivers/mmu.c:291-351 | An empty root table in one new live block, or no change |
| MmuContext.Context.Descend | drivers/mmu.c:397-438 | The walk of a map, in place, links exactly the specified tables |
| MmuContext.Context.Enter | drivers/mmu.c:397-461 | One piece entered in memory leaves the specified tree and allocator |
| MmuContext.Context.Map | drivers/mmu.c:376-470 | The call in memory leaves the specified tree and allocator and stores nowhere outside its tables; its return code is decided by the tree and the free blocks before the call; a size that is not whole pages changes nothing |
| MmuContext.Context.PtFree | drivers/mmu.c:207-231 | The recursive free in memory leaves the specified allocator |
| MmuContext.Context.WalkDown | drivers/mmu.c:494-529 | The recorded walk reaches the piece exactly when its path exists |
| MmuContext.Context.TableEmpty | drivers/mmu.c:560-567 | The scan reports emptiness exactly |
| MmuContext.Context.WalkBack | drivers/mmu.c:544-581 | The backwards walk in memory leaves the specified tree, allocator and code |
| MmuContext.Context.Remove | drivers/mmu.c:492-581 | One piece removed in memory, or reported missing as specified, with nothing stored then |
| MmuContext.Context.Unmap | drivers/mmu.c:472-590 | The same for the unmap: 0 only if every piece of the region was mapped, which then is gone; with a slot per table exactly then, and exactly the pieces before the first missing one are gone |
| MmuContext.Context.Destroy | drivers/mmu.c:353-374 | On success exactly the context's tables were given back, each once |
| EccTables.InvParityMeans | lib/ecc.c:42-65 | The parity table holds 1 for an even number of ones |
| EccTables.BitsPerByteMeans | lib/ecc.c:67-89 | The count table holds the number of ones |
| EccTables.AddressBitsMeans | lib/ecc.c:91-130 | The address table squeezes out the odd-numbered bits |
| EccParity.CodeToggles | lib/ecc.c:357-393 | The code is linear: a flipped data bit toggles, in every parity pair, the one its address bit selects |
| EccParity.FlipXor | lib/ecc.c:196-261 | A flipped bit enters a parity exactly when its address is selected |
| EccParity.PaddedFlip | lib/ecc.c:160-174 | Padding commutes with a flip in the data |
| EccParity.PaddingNeutral | lib/ecc.c:160-174 | The padding adds nothing to any parity |
| EccParity.ErasedCode | lib/ecc.c:357-394 | An erased block, all 0xff, has the erased code ff ff ff, whatever its length |
| EccDecode.SyndromeDecodes | lib/ecc.c:443-471 | The decoder recognises a one-bit syndrome and reads back exactly its byte and bit |
| EccDecode.TwoSyndromes | lib/ecc.c:440-482 | Two different flipped bits never look like none, like one, or like a fault in the code |
| EccDecode.SingleCorrected | lib/ecc.c:405-483 | Any single flipped data bit is put back and 1 returned |
| EccDecode.DoubleReported | lib/ecc.c:405-483 | Any two flipped data bits return -1 with the block unchanged |
| EccDecode.StoredFlipHarmless | lib/ecc.c:477-479 | A flipped bit of the stored code returns 1 with the block unchanged |
| EccDecode.IntactAccepted | lib/ecc.c:440-441 | Equal codes return 0 with the block unchanged |
| EccFaults.SingleFault | lib/ecc.c:405-483 | Any one flipped bit of data or stored code: 1, and the block is as stored |
| EccFaults.DoubleFault | lib/ecc.c:405-483 | Any two flipped bits of data and stored code: -1 with the block unchanged, except that beside a fault in a constant code bit of a 256-byte block a data bit is still put right |
| EccFaults.FlipIsSyndrome | lib/ecc.c:443-471 | Everything the decoder takes for a flipped data bit is the syndrome of the bit it finds |
| EccFaults.OutOfBoundsExact | lib/ecc.c:465-471 | The repair writes outside the block exactly when the codes differ as if a bit of the padding had flipped |
| EccFaults.OutOfBoundsHappens | lib/ecc.c:465-471 | For every block but one of 512 bytes there are such stored codes, also for 256 bytes |
| EccWords.Chunk4 | lib/ecc.c:196-252 | One round of the loop adds to rp4 the words whose address bit 2 is 0 |
| EccWords.Chunk6 | lib/ecc.c:196-252 | The same for rp6 and bit 3 |
| EccWords.Chunk8 | lib/ecc.c:196-252 | The same for rp8 and bit 4 |
| EccWords.Chunk10 | lib/ecc.c:196-252 | The same for rp10 and bit 5 |
| EccWords.WholeChunk | lib/ecc.c:254-260 | rp12, rp14 and rp16 take a whole round exactly when a bit of its number is 0 |
| EccLanes.RowFolded | lib/ecc.c:269-291 | The folded accumulators are the byte parities of the rows whose address bit is 0 |
| EccLanes.LowRowsFolded | lib/ecc.c:311-331 | The parities for address bits 0 and 1 come out of the lanes of the whole |
| EccLanes.Complement | lib/ecc.c:333-349 | The parity of the other half of the rows is the exclusive or with the whole |
| Ecc.Sixteen | lib/ecc.c:196-252 | The sixteen unrolled words in place |
| Ecc.Accumulate | lib/ecc.c:196-261 | The loop, four or eight rounds: every accumulator ends with the words whose address bit is 0 |
| Ecc.Encode | lib/ecc.c:177-394 | The three code bytes are the parities by their plain definition, for both block sizes |
| Ecc.CalculateEcc | lib/ecc.c:139-394 | The code of the data padded with 0xff; exactly 256 bytes count as a 512-byte block |
| Ecc.CorrectData | lib/ecc.c:405-483 | The repair in place leaves the specified block and code |
| Sha256Block.SigmaForms | lib/sha256.c:169-176 | The shift forms are the rotations of section 4.1.2 of FIPS 180-2 |
| Sha256Block.MajForm | lib/sha256.c:178 | The rewritten form is the majority function |
| Sha256Block.ChForm | lib/sha256.c:179 | The rewritten form is the choice function |
| Sha256Block.RoundInPlace | lib/sha256.c:187-192 | Writing two registers and rotating the roles is one round |
| Sha256Block.P | lib/sha256.c:187-192 | The macro in place is a round of section 6.2.2 on the registers in their roles |
| Sha256Block.R | lib/sha256.c:181-185 | The schedule word is computed and stored in place as defined |
| Sha256Block.FirstRounds | lib/sha256.c:222-232 | Eight unrolled rounds with rotated roles are eight rounds |
| Sha256Block.LaterRounds | lib/sha256.c:234-244 | The same while extending the schedule |
| Sha256Block.Process | lib/sha256.c:195-251 | The block function is the 64-round definition for every block and chaining value |
| Sha256Spec.HashAppend | lib/sha256.c:297-304 | Whole blocks may be compressed in portions |
| Sha256Spec.PadShape | lib/sha256.c:334-362 | Padding gives whole blocks ending in the length in bits |
| Sha256Spec.FewestZeros | lib/sha256.c:338-352 | with the fewest zeros, as section 5.1.1 asks |
| Sha256Spec.Be64Value | lib/sha256.c:357-362 | The length bytes read back as the length |
| Sha256Constants.ConsecutivePrimes | lib/sha256.c:149-167 | The table of primes behind the constants holds the first 64, none left out |
| Sha256Constants.CubeRoots | lib/sha256.c:149-167 | Round constant t is the first 32 fractional bits of the cube root of prime t |
| Sha256Constants.SquareRoots256 | lib/sha256.c:113-120 | The initial hash of SHA-256 is the first 32 fractional bits of the square roots of the first eight primes |
| Sha256Constants.SquareRoots224 | lib/sha256.c:125-132 | That of SHA-224 is the second 32 fractional bits of those of the next eight |
| Sha256Example.Compressed | lib/sha256.c:195-251 | The block of the standard's first example compresses to the hash the standard prints, through all 64 schedule words and rounds |
| Sha256Example.DigestOfAbc | lib/sha256.c:395-418 | The digest of "abc" is the one the standard prints |
| Sha256.CarryAdds | lib/sha256.c:279-283 | The 32-bit addition with its carry test adds to the 64-bit byte count, across every boundary |
| Sha256.LeftOver | lib/sha256.c:276 | The low counter word alone gives the fill of the buffer |
| Sha256.LengthWords | lib/sha256.c:357-362 | The high and low words are eight times the byte count |
| Sha256.PadOneBlock | lib/sha256.c:338-342 | Up to 55 leftover bytes the padding fits one block |
| Sha256.PadTwoBlocks | lib/sha256.c:343-352 | From 56 it takes an extra block |
| Sha256.ConcatMore | lib/sha256.c:370-379 | The output words follow each other big-endian |
| Sha256.Context.Starts | lib/sha256.c:105-138 | The context stands for the empty message |
| Sha256.Context.Update | lib/sha256.c:265-310 | The context stands for what it stood for with the input appended, for any cut |
| Sha256.Context.Absorb | lib/sha256.c:324-365 | The state becomes the hash of the padded message in both padding cases |
| Sha256.Context.Finish | lib/sha256.c:324-382 | The output is the digest of everything absorbed, 28 or 32 bytes, and no byte beyond |
| Sha256.OneShot | lib/sha256.c:395-418 | The digest in one call |
| Sha256.Streamed | lib/sha256.c:265-382 | For every message and every way of cutting it, the digest of the whole |
| ShmemLink.SenderKeeps | lib/shmem-link.c:41-60 | Every access of a sending processor keeps the handshake invariant |
| ShmemLink.ReceiverKeeps | lib/shmem-link.c:62-73 | Every access of a receiving processor keeps it |
| ShmemLink.RunsKeepInv | lib/shmem-link.c:41-73 | It holds after every interleaving without timeouts |
| ShmemLink.Handshake | lib/shmem-link.c:41-73 | Messages arrive once each, in order, untorn and padded; the two read-modify-writes of the status word never overlap and none is lost |
| ShmemLink.Progress | lib/shmem-link.c:49-58 | A send under way never stalls: each access but polling brings it closer, and never do both sides only poll |
| ShmemLink.DeliveryExact | lib/shmem-link.c:55-59 | Acknowledged means delivered in every run exactly when no send can time out |
| ShmemLink.LateAck | lib/shmem-link.c:55-59 | A run in which a late acknowledgement is taken for that of the next send |
| ShmemLink.CopyKeeps | lib/mem.c:41-62 | Word stores, byte stores and zero fill build the padded message |
| Shmem.Region.Send | lib/shmem.c:34-44 | The data area is the message with zeros behind it |
| Shmem.Region.Recv | lib/shmem.c:46-53 | The buffer gets the data area and nothing beyond it changes |
| Shmem.Region.SetNew | lib/shmem.c:76-84 | Only the NEW bit changes |
| Shmem.Region.SetAck | lib/shmem.c:86-94 | Only the ACK bit changes |
| Shmem.Post | lib/shmem-link.c:46-47 | The message is in the region and NEW is up, ACK as before |
| Shmem.Take | lib/shmem-link.c:62-73 | Nothing without NEW; otherwise the message, NEW down, ACK up |
| Shmem.PostThenTake | lib/shmem-link.c:41-73 | Undisturbed, the message posted is the message taken |
| MailboxLink.ThreadKeeps | lib/mailbox-link.c:124-146 | Every access of the sending thread keeps the invariant |
| MailboxLink.AckKeeps | lib/mailbox-link.c:60-67 | Every access of the ACK handler keeps it |
| MailboxLink.RcvKeeps | lib/mailbox-link.c:69-84 | Every access of the RCV handler keeps it |
| MailboxLink.Handshake | lib/mailbox-link.c:60-146 | Each send that returned was read exactly once, in order; data registers are never read half-written nor overwritten unread; RCV is clear when ACK is raised |
| MailboxLink.NeverStuck | lib/mailbox-link.c:135-144 | A waiting sender always has something pending that can wake it |
| MailboxLink.OrderExact | drivers/mailbox.h:55-60 | Clearing RCV before raising ACK is exactly the order that never strands a sender |
| MailboxLink.SwappedSticks | drivers/mailbox.h:55-60 | With the orders swapped, a run in which the second message is lost |
| Mailbox.Controller.Send | drivers/mailbox.c:211-232 | Exactly the data registers of the one mailbox become the message with zeros behind it |
| Mailbox.Controller.Read | drivers/mailbox.c:234-251 | As many whole registers as asked for, at most sixteen, and the byte count |
| Mailbox.Controller.Serve | drivers/mailbox.c:281-297 | One mailbox served by its callback, or just its event cleared |
| Mailbox.Answered | lib/mailbox-link.c:60-84 | After an interrupt every message taken is acknowledged, every acknowledgement taken is noted, the event served is down and data stay |
| Mailbox.ServedIsHandler | lib/mailbox-link.c:69-84 | Serving the RCV event is the composition of the handler's single accesses: cause, sixteen registers, RCV cleared, ACK raised |
| Mailbox.ServedIsAckHandler | lib/mailbox-link.c:60-67 | Serving the ACK event is the composition of its accesses |
| Mailbox.Controller.Isr | drivers/mailbox.c:299-339 | Every claimed mailbox with the event raised and mapped to the line is served once, in order, and no other changes |
| Mailbox.ServedOnce | drivers/mailbox.c:299-339 | A second interrupt finds nothing left to serve |
| Mailbox.Controller.RcvIsr | drivers/mailbox.c:341-344 | The RCV interrupt of an index serves event A on its line |
| Mailbox.Controller.AckIsr | drivers/mailbox.c:345-348 | The ACK interrupt of an index serves event B on its line |
| Mailbox.OtherLinesApart | drivers/mailbox.c:33-34 | A mailbox claimed for one event and index is left alone by every other interrupt |

## Left out

- Register plumbing: the SMMU, DMA and mailbox set-up registers, interrupt controller calls and printing are dropped; DMA-330 instructions ADDH, KILL, NOP, STZ, WFE, GO and the forever form of LPEND are not modelled.
- DMA channel life cycle: interrupts, abort, waiting, the debug start (its channel number is always 0) and the DEV_TO_DEV and NONE types, for which the loops make no progress.
- DmaDevice.DeviceCorrect: a wait for the peripheral is taken to end at once, with the request that was waited for; programs for a peripheral are run on hardware that needs no barriers, because the driver emits none for them.
- DmaCorrect.CompilerCorrect: the microcode area and data memory are separate, so a transfer that overwrites its own program is not modelled; the FIFO is unbounded; only control words that increment both addresses without swapping are stepped.
- MmuContext.Context.Map: a failed table allocation stops with its own code -2, where the source goes on with a null table; sizes of zero and virtual regions beyond 2^32 or physical ones beyond 2^48, where fields overlap, are excluded. A map or unmap that fails midway is not undone, as in the source.
- MmuContext.Context.Descend: the walk ends with `ok` false when a table cannot be allocated, where the source goes on with a null table.
- MmuContext.Context.Enter: the same; one piece is refused when a table cannot be allocated.
- MmuContext.Context.Unmap: the same bounds on size and region.
- MmuContext.Context: the memory is a field of each context; that contexts sharing one memory do not disturb each other is stated about the memory before and after a call, not about two objects.
- Balloc.Allocator.constructor: clearing the arena is not modelled, the address must not be null.
- DmaCompiler.EmitLPEND: the forever form is left out; every caller sets `forever` to false (`drivers/dma.c:1109-1148`).
- Ecc.CorrectData: blocks above 512 bytes are left out; the decoded address must lie in the buffer, because a write outside it has no meaning here; EccFaults says exactly for which codes it does not. Little-endian only.
- Ecc.CalculateEcc: the buffer holds exactly the bytes to protect.
- Sha256.Context.Update: one input is shorter than 2^32 bytes, the width of size_t on the target.
- ShmemLink.Handshake: one sender and one receiver on one region; opening and closing regions and the request call are left out. Sleeping is not modelled: a poll may happen at any time.
- MailboxLink.Handshake: message words are taken as they are read, the bytes behind an odd length included; the sender's handler runs to completion before its thread goes on; sends do not time out; replies, claiming and reference counts are left out.
- Mailbox.Controller.Serve: the callback is the command or the acknowledgement handler, or none.
- Mailbox.Controller.Isr: the assertion that something was handled is returned as a flag instead; the callbacks are the command and acknowledgement handlers.
- Everything else in the repository (boot, power, watchdog, timers, command and event queues, boards and tools) is left out; those parts are table look-ups or device access with little state.
