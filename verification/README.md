# Verification of the CheriOS file system, kernel and benchmark algorithms

This project models the algorithmic heart of the repository in Dafny and proves it correct: the FAT file
system module (FatFs), the kernel's scheduler, message queues and calls, the page allocator, and the
algorithms of the benchmark programs (adaptive bitonic sort, AES with its file format, minimum spanning
trees, quicksort, shortest paths, ADPCM, CRC-32).  Verify it with `dafny verify dfyconfig.toml`.

Code that updates memory step by step is modelled as classes and methods over arrays and linked nodes;
each method is proved against a function of its inputs, and what the source promises is proved about that
function.

## The parts

**FatFs** (`FatTable`, `FatVolume`, `FatStore`, `FatFile`, `FatPattern`, `FatMake`), with 512-byte sectors,
without long names, exFAT and fast seek, as `fatfs/include/ffconf.h` sets them.

- `FatTable` is the allocation table as a sequence: chains, families of disjoint chains, searching,
  stretching, cutting and removing.
- `FatVolume` has the write-back window over the disk and the packed 12-, 16- and 28-bit entries behind it.
  `FATFS.Logical()` is the disk as it will be once the window is written back; `Fat()` is the table it holds.
  Moving the window never changes the logical disk, a stored entry reads back masked and no other changes,
  and table copies that agreed at the mount agree after every flush.
- `FatStore` and `FatFile` have the bytes of a file: chain, private sector buffer and disk together hold
  `content`, a byte sequence; `ContentOnVolume` says where each of its bytes is on the volume.  `Read`, `Write` and `Seek` act on `content` and a position, across cluster
  boundaries, direct transfers of whole sectors and dirty buffers; `Session` strings any number of them
  together, and `ReadsLastWritten` says that a read gives the bytes last written at each offset.  `OthersStay`
  says that meanwhile every other file of the volume keeps its chain and its bytes.
- `FatPattern` proves that the wildcard search with its early stop matches exactly the names whose letters
  can be dealt out to the wildcards.
- `FatMake` makes a volume and mounts it again.  It mounts as planned if and only if it has fewer than 65536
  sectors: above, the total is cut to 16 bits when it is written (`fatfs/src/ff.c:5318`).

**Kernel** (`ActiveQueue`, `KernelModel`, `KernelEffects`, `Kernel`).  `KernelModel` is a transition system whose steps are
register, call, return, terminate, interrupt and timer.  `Inv` holds in every run: an activation is in the
active prefix exactly once if and only if it is runnable or schedulable, the two queue arrays are inverse to
each other there, waiting activations have empty queues, schedulable ones do not, and a blocked activation
waits for an open call of its own, the latest it has made.  Messages arrive in order with at most 15 pending;
each synchronous call is answered at most once and only while its caller is blocked on it.  `KernelEffects`
shows that every step is one of a machine without arrays and ring buffers, and what follows for callers and
callees: what is sent, who starts with what in its registers, and who runs next.  `Kernel.Tables` has the
in-place code; each method computes the model's step.

**Adaptive bitonic sort** (`Bitonic`, `BisortTree`).  The in-place methods swap values and subtrees of a
shared tree and compute `Descend`, `Merge` and `Sort` on trees.  Half-cleaning a bitonic sequence gives two
bitonic halves with all of one on the right side of the other, and one descent finds all exchanges.  The sort
is correct on pairwise distinct values.  With ties the descent can miss an exchange: trees of up to three
levels sort every input, every deeper perfect tree has an input that comes out unsorted.

**AES** (`AesTables`, `Aes`, `AesVector`, `Cbc`).  The round tables hold the column-mixed substitution box, the unrolled
key schedule computes the expansion of section 5.2 of FIPS 197, the reversed and mixed key undoes the
forward rounds by the equivalent inverse cipher of its section 5.3.5, and the file format with its
length nibble recovers every message of every length.  `AesVector` goes through the example of Appendix C.3.

**Graphs and sorting** (`Spanning`, `EdgeHash`, `Prim`, `Pigeonhole`, `Labels`, `Dijkstra`, `Qsort`).  Prim's
algorithm over a spliced list and per-vertex hash tables returns the weight of a minimum spanning tree; the first-in
first-out label-correcting search ends with the true distances and acyclic predecessor links; quicksort
sorts and permutes under any total preorder.

**Page allocator, ADPCM, CRC** (`Mmap`, `Adpcm`, `Crc32`).  Following the lengths tiles the pool, and in
every run live mappings are disjoint used chunks of their own size; coder and decoder stay in lockstep within
an error bound; the table-driven checksum is the remainder of long division, and detects every change within
32 successive bits.

## Assumptions

- No disk error.  The clock, random bytes, seeds and header noise are parameters.  Allocation gives fresh objects.
- Ghost parameters (the key a context was loaded with, the tree a pointer stands for, the list of vertices)
  only name what the heap already holds.
- Several methods split one long C function where it has a loop or a macro: `ReadStep`, `LocateForWrite`,
  `WritePart`, `SeekWalk`, `Partition`, `Gather`, `EmitBlock`, `RelaxEdge`, `WriteArea` and others like them.
- `& (csize - 1)`, `& (MAX_MSG - 1)` and the shifts of the ADPCM codec are written as remainders and
  quotients by the same powers of two; `x & (x - 1)` in `f_mkfs` and `find_volume` is `OneBit`.
- A failed assertion and a panic of the kernel are the outcome `Halted`.
- Where code and documentation differ, the model follows the code.  `sched_delete` (`kernel/src/sched.c:70-76`)
  takes an activation for active by a test that does not look at the end of the active prefix, so a stale slot can
  mislead it; `KernelModel.StaleSlotReached` runs into such a state, and `ActiveQueue.DeleteIff` and
  `KernelModel.StepIff` say exactly when it does not.  The reply test (`kernel/src/ccall.c:153`) keeps 28 bits of
  a 32-bit call number; `KernelModel.AnswerAcceptedIff` says exactly which right answers it lets through, and
  `KernelModel.AnswerWakes` that it lets no wrong one through.  The decrement of the free counter
  (`fatfs/src/ff.c:1360`) is skipped on a volume that is all free; `FatTable.CounterExact` says exactly when.

## Model

| member | source | states |
|---|---|---|
| FatTable.ChainIsAcyclic | fatfs/src/ff.c:1213-1284 | A chain that ends in an end mark visits no cluster twice |
| FatTable.StretchOutcome | fatfs/src/ff.c:1295-1367 | Stretching a chain either returns the existing successor, or appends one formerly free cluster at its end, or changes nothing |
| FatTable.StretchTakesNext | fatfs/src/ff.c:1295-1347 | The appended cluster is the first free one after the end of the chain, or for a new chain after the hint, in a scan that starts again from 2 |
| FatTable.StretchKeepsSound | fatfs/src/ff.c:1295-1367 | A table without the reserved value 1 stays so, and then stretching never reports damage |
| FatTable.StretchKeepsFamily | fatfs/src/ff.c:1334-1359 | Appending a free cluster to one of a family of disjoint chains leaves a family of disjoint chains |
| FatTable.CreateKeepsFamily | fatfs/src/ff.c:1334-1359 | A new one-cluster chain joins the family of disjoint chains |
| FatTable.UnlinkChain | fatfs/src/ff.c:1237-1270 | Removing from the head of a chain frees exactly its clusters and succeeds |
| FatTable.UnlinkOnlyFrees | fatfs/src/ff.c:1237-1270 | Removing terminates on every table, cyclic ones included, and only ever frees entries |
| FatTable.TruncateKeepsFamily | fatfs/src/ff.c:1213-1284 | Cutting a chain with an end mark frees exactly its tail and leaves a family of disjoint chains |
| FatTable.RemoveKeepsFamily | fatfs/src/ff.c:1213-1284 | Removing a whole chain frees exactly its clusters and leaves the other chains |
| FatTable.CounterExact | fatfs/src/ff.c:1360 | After an allocation the free counter is the number of free entries if and only if fewer than all data clusters were free before |
| FatTable.CounterSkipped | fatfs/src/ff.c:1360 | A table of two free clusters on which the counter stays at two when one is taken |
| FatVolume.FatType.PutThenGet | fatfs/src/ff.c:973-1098 | A stored entry reads back as its low 12, 16 or 28 bits, and no other entry changes, FAT12 neighbours that share a byte included |
| FatVolume.FatType.PutThenGet32 | fatfs/src/ff.c:1083-1094 | Storing a FAT32 entry also keeps its four reserved bits |
| FatVolume.FatType.EntriesAreDigits | fatfs/src/ff.c:989-1006 | Entries lie lowest bits first and without gaps: two of 12 bits are the little-endian number of three bytes, one of 16 that of two, one of 28 the low bits of that of four |
| FatVolume.Geometry.ImageInOrder | fatfs/src/ff.c:988-1010 | The sectors of the table hold its bytes in order |
| FatVolume.Geometry.FlushMirrors | fatfs/src/ff.c:856-880 | Writing a window back into every copy keeps the table copies equal |
| FatVolume.FATFS.constructor | fatfs/src/ff.c:3057-3077 | A mounted volume shows the disk as it is, and knows whether the copies of its table agree |
| FatVolume.FATFS.SyncWindow | fatfs/src/ff.c:856-880 | The logical disk stays and the real disk becomes it; copies of the table that agreed when the volume was mounted agree again |
| FatVolume.FATFS.MoveWindow | fatfs/src/ff.c:885-906 | The window shows the wanted sector of the logical disk, which does not change |
| FatVolume.FATFS.DiskWrite | fatfs/src/ff.c:3557-3559 | Writing data sectors behind the window leaves the table as it was |
| FatVolume.FATFS.GetFat | fatfs/src/ff.c:973-1038 | The entry of the table, or 1 for a number that is no cluster; FAT12 entries may straddle two sectors |
| FatVolume.FATFS.PutFat | fatfs/src/ff.c:1049-1098 | The table with that entry replaced by the masked value, and nothing else on the disk changed |
| FatVolume.FATFS.FindFree | fatfs/src/ff.c:1334-1347 | The first free cluster after the start with wrap-around; 0 only if the table is full |
| FatVolume.FATFS.CreateChain | fatfs/src/ff.c:1295-1367 | The table is stretched as `Stretched` says; hint and free counter follow |
| FatVolume.FATFS.RemoveChain | fatfs/src/ff.c:1213-1284 | The table after end mark and removal; a free counter that was exact stays exact |
| FatStore.ClusterSectors | fatfs/src/ff.c:955-963 | Every sector of a cluster lies in the data area; where exactly, `ClustersTile` says |
| FatStore.ClustersTile | fatfs/src/ff.c:955-963 | Clusters 2, 3 and so on follow each other from the start of the data area on, as many sectors each as a cluster has, up to the end of the area |
| FatStore.SectorInCluster | fatfs/src/ff.c:955-963 | Every sector of that area is in the cluster and at the place that division gives |
| FatStore.SectorsDiffer | fatfs/src/ff.c:955-963 | Different places in the data area have different sector numbers |
| FatStore.Store.SectInjective | fatfs/src/ff.c:3421-3423 | Different sectors of a file lie at different places of the disk |
| FatStore.Store.SectorByte | fatfs/src/ff.c:3421-3423 | Byte k of a file is byte k modulo 512 of the sector that the chain, the cluster size and the start of the data area give for it |
| FatStore.Store.TransferChangesRun | fatfs/src/ff.c:3553-3571 | A direct transfer changes exactly the run of file sectors it covers, the buffered one included |
| FatStore.Store.WriteBackKeeps | fatfs/src/ff.c:3542-3547 | Writing the private buffer back does not change what the file holds |
| FatStore.OthersAfterTransfer | fatfs/src/ff.c:3553-3571 | A direct transfer into the file's own cluster reaches no byte of a cluster outside the file |
| FatStore.OtherChainKept | fatfs/src/ff.c:3378-4035 | When foreign clusters keep their entries and bytes, so does every chain apart from the file |
| FatStore.SpliceAt | fatfs/src/ff.c:3486-3608 | Which byte of a spliced sequence comes from the write and which from the old content |
| FatFile.FIL.constructor | fatfs/src/ff.c:3351-3362 | A file opened on a chain that holds given bytes has that content and stands at position 0 |
| FatFile.FIL.Opens | fatfs/src/ff.c:3351-3362 | A file can be opened on every chain of the table, with the bytes that its clusters hold in their order |
| FatFile.FIL.ContentOnVolume | fatfs/src/ff.c:3378-3476 | At any time byte k of the content is the byte of the volume at the place that the chain gives for k, unless the dirty buffer holds a newer one |
| FatFile.FIL.WriteBack | fatfs/src/ff.c:3542-3547 | The dirty buffer goes to the disk; content and table stay |
| FatFile.FIL.LoadSector | fatfs/src/ff.c:3447-3461 | The buffer holds the wanted sector; content and table stay |
| FatFile.FIL.FollowChain | fatfs/src/ff.c:3402-3420 | At a sector boundary the current cluster is the chain's cluster for the position |
| FatFile.FIL.ReadRun | fatfs/src/ff.c:3424-3445 | A direct transfer overlaid with the dirty buffer gives the bytes of the content |
| FatFile.FIL.Extend | fatfs/src/ff.c:3516-3536 | The next cluster of the chain, appended if there is none; fails only on a full or damaged table |
| FatFile.FIL.WriteRun | fatfs/src/ff.c:3553-3575 | A direct transfer puts its bytes into the content and nothing else, also when the buffer is overwritten |
| FatFile.FIL.WritePart | fatfs/src/ff.c:3582-3601 | Bytes copied into the buffered sector appear in the content, and nothing else changes |
| FatFile.FIL.Read | fatfs/src/ff.c:3378-3476 | Gives the bytes that the volume and the dirty buffer hold at the places of the chain from the position on, as many as asked for or there are, and advances the position; the content stays; the error and access cases |
| FatFile.FIL.Write | fatfs/src/ff.c:3486-3608 | Replaces the bytes from the position on by the written ones and grows the content; short only when the volume is full; the error and access cases |
| FatFile.FIL.Seek | fatfs/src/ff.c:3883-4035 | Stands at the wanted offset, clipped to the size if the file is read-only; growing keeps the old bytes; short only when the volume is full |
| FatFile.FIL.OthersStay | fatfs/src/ff.c:3378-4035 | Whatever was read, written or sought through a file since it was opened, every chain apart from it is still a chain, apart from it, and its clusters hold what they held |
| FatFile.Session | fatfs/src/ff.c:3378-4035 | Any sequence of reads, writes and seeks runs like one over a byte sequence with a position; each single operation falls short only if the volume was full when it ended |
| FatFile.Untouched | fatfs/src/ff.c:3378-4035 | Over a run, an offset that no write covers keeps its byte |
| FatFile.ReadsLastWritten | fatfs/src/ff.c:3378-4035 | Over a run, a read gives at each offset the byte last written there |
| FatPattern.MatchesIffPieces | fatfs/src/ff.c:2471-2508 | The recursive meaning of a pattern is the declarative one: the name splits into one piece for each pattern letter |
| FatPattern.UpperFolds | fatfs/src/ff.c:2447-2462 | Characters match if they are equal or one letter in its two cases |
| FatPattern.WildcardBlock | fatfs/src/ff.c:2491-2495 | A block of wildcards is summed up by its number of question marks and whether it has a star |
| FatPattern.WildBlock | fatfs/src/ff.c:2491-2496 | A block of wildcards matches like that many skipped letters, and more if there was a star |
| FatPattern.LaterTooShort | fatfs/src/ff.c:2497-2505 | When the name ran out, no later start can match, so the early stop loses nothing |
| FatPattern.PatternMatching | fatfs/src/ff.c:2471-2508 | True exactly when the rest of the name matches after the skip, anywhere if the search is infinite |
| FatPattern.MatchName | fatfs/src/ff.c:4194 | True exactly when the name matches the pattern declaratively, in either case |
| FatMake.FindVolume | fatfs/src/ff.c:2956-3103 | Mounts the volume that `VolumeIs` describes by its fields; tells a read error from a disk without a file system |
| FatMake.VolumeIs | fatfs/src/ff.c:2956-2972 | The volume is in sector 0 if that is a FAT boot sector, or else, if it is at least signed, at the start of the first of four partitions that holds one |
| FatMake.CheckIs | fatfs/src/ff.c:2884-2887 | A FAT boot sector has the bytes 55 AA at 510 and the name FAT at 54 or 82 |
| FatMake.MountIff | fatfs/src/ff.c:3026-3073 | Without overflow a volume mounts if and only if its fields are sensible and its table has room for every cluster, and then reserved sectors, table copies, root directory and as many clusters as fit follow each other |
| FatMake.TypeIsNarrowest | fatfs/src/ff.c:3053-3055 | The type is the narrowest in which all cluster numbers stay below the marks |
| FatMake.PlanFits | fatfs/src/ff.c:5211-5260 | A plan has room in the table for every cluster, and its type goes with the final number of clusters |
| FatMake.PlanIff | fatfs/src/ff.c:5222-5260 | A volume is planned if and only if, with the shortest table for the clusters there could be and the reserved and root sectors of their type, one cluster fits and those that fit are still of that type; the plan is that |
| FatMake.UnitFits | fatfs/src/ff.c:5211-5219 | The chosen unit is a power of two between 1 and 128 sectors, whatever was asked for |
| FatMake.UnitAsAsked | fatfs/src/ff.c:5211-5219 | A power of two up to 128 is taken as sectors and one from 512 to 65536 as bytes; larger or between gives 128 sectors; anything else gives the bytes of the bracket that the size of the volume is in |
| FatMake.OneBitIff | fatfs/src/ff.c:5211 | The test for at most one bit finds the powers of two, and 0 |
| FatMake.BootReadsBack | fatfs/src/ff.c:5304-5344 | Every field that a mount looks at reads back from the boot sector as it was meant |
| FatMake.BootIsLabelled | fatfs/src/ff.c:5304-5341 | The other fields too: jump and names, media, drive geometry, place of the volume, serial number, and on FAT32 the root and the places of the two special sectors |
| FatMake.PartitionIs | fatfs/src/ff.c:5284-5296 | The partition entry has start, length and the system number of type and size |
| FatMake.PartitionEnds | fatfs/src/ff.c:5286-5293 | And first and last sector by head, sector and cylinder |
| FatMake.InfoReadsBack | fatfs/src/ff.c:5390-5395 | The information sector of FAT32 has its marks, all clusters but one free, and cluster 2 taken last |
| FatMake.MountedAsPlanned | fatfs/src/ff.c:3026-3073 | Below 65536 sectors a mount finds exactly the planned geometry |
| FatMake.MountedSmaller | fatfs/src/ff.c:5315-5319 | From 65536 sectors on a mount fails or sees fewer clusters than planned |
| FatMake.LargeVolumeShrinks | fatfs/src/ff.c:5315-5319 | A volume of 70000 sectors: 2186 clusters are planned and a mount sees 138 |
| FatMake.NewTableIsFree | fatfs/src/ff.c:5349-5372 | On a new volume every cluster is free and the areas are laid out as the file system needs them |
| FatMake.NewTableStarts | fatfs/src/ff.c:5351-5363 | The table starts with the media byte under ones, an end mark, and on FAT32 the end of the root directory |
| FatMake.Drive.BuildBoot | fatfs/src/ff.c:5304-5341 | The boot sector of the layout, store by store, as `BootReadsBack` and `BootIsLabelled` read it |
| FatMake.Drive.ChooseUnit | fatfs/src/ff.c:5211-5219 | The unit that `UnitAsAsked` describes |
| FatMake.Drive.WriteVolume | fatfs/src/ff.c:5272-5398 | Partition table, boot sector, table and root directory as planned, on FAT32 the copy of the boot sector and both information sectors, and no sector outside |
| FatMake.Drive.MakeFs | fatfs/src/ff.c:5154-5400 | Succeeds exactly when there is a plan, and then the disk is formatted by it, with clusters of the size asked for as `AsAsked` says; otherwise the disk stays |
| FatMake.MadeThenMounted | fatfs/src/ff.c:5154-5400 | A made volume is found again, and mounts with the planned type and number of clusters if and only if it has fewer than 65536 sectors; then every cluster is free |
| Bitonic.HalfCleaner | olden_bisort/src/main.c:143-205 | Comparing the halves of a bitonic sequence place by place gives two bitonic halves, all of one on the right side of the other |
| Bitonic.DescendCleans | olden_bisort/src/main.c:155-198 | One descent makes exactly the exchanges of the half-cleaner, on one-sided halves of distinct values |
| Bitonic.DescendNodes | olden_bisort/src/main.c:155-198 | The descent moves nodes between two disjoint trees, losing and doubling none |
| Bitonic.MergeNodes | olden_bisort/src/main.c:143-205 | Merging keeps the set of nodes, with ties too |
| Bitonic.SortNodes | olden_bisort/src/main.c:207-231 | Sorting keeps the set of nodes, with ties too |
| Bitonic.MergeSorts | olden_bisort/src/main.c:143-205 | Merging sorts every bitonic tree and spare of distinct values |
| Bitonic.SortSameValues | olden_bisort/src/main.c:207-231 | Sorting permutes the values, with ties too |
| Bitonic.SortSorts | olden_bisort/src/main.c:207-231 | In-order and then the spare come out sorted, for distinct values or up to three levels |
| Bitonic.MergeMisses | olden_bisort/src/main.c:155-198 | From three levels on there are bitonic inputs with ties that a merge does not sort |
| Bitonic.SortMisses | olden_bisort/src/main.c:207-231 | From four levels on there is an input with ties that comes out unsorted |
| Bitonic.SortsEverythingIff | olden_bisort/src/main.c:207-231 | Every input of a depth is sorted if and only if the depth is at most three |
| BisortTree.RandTree | olden_bisort/src/main.c:91-111 | A fresh perfect tree of distinct nodes |
| BisortTree.SwapVal | olden_bisort/src/main.c:113-121 | Exchanges the values of two nodes and nothing else |
| BisortTree.SwapLeft | olden_bisort/src/main.c:123-131 | Exchanges the left links of two nodes and nothing else |
| BisortTree.SwapRight | olden_bisort/src/main.c:133-141 | Exchanges the right links of two nodes and nothing else |
| BisortTree.DescendInPlace | olden_bisort/src/main.c:155-198 | The loop over two pointers computes the descent on the two trees |
| BisortTree.Bimerge | olden_bisort/src/main.c:143-205 | The in-place merge computes `Merge` on the tree |
| BisortTree.Bisort | olden_bisort/src/main.c:207-231 | The in-place sort computes `Sort` on the tree |
| BisortTree.BisortSorts | olden_bisort/src/main.c:207-231 | The shared tree holds the same nodes and values, is perfect, and reads sorted, for distinct values or up to three levels |
| AesTables.FTableHolds | AES/include/aestab.h:185-196 | The forward table holds the column-mixed substitution box |
| AesTables.ITableHolds | AES/include/aestab.h:205-216 | The inverse table holds the inverse-mixed inverse substitution box |
| AesTables.MTableHolds | AES/include/aestab.h:273-293 | The mixing table holds the inverse-mixed byte |
| AesTables.SBoxUndone | AES/include/aestab.h:22-92 | The inverse substitution box undoes the substitution box |
| AesTables.SBoxIsBijective | AES/include/aestab.h:22-92 | The two boxes are each other's inverse, so each is a bijection on bytes |
| AesTables.SBoxIsFieldInverse | AES/include/aestab.h:22-56 | The substitution box is the affine image of the inverse in the field of 256 elements |
| AesTables.InvMcolInverts | AES/src/aes.c:214 | Inverse column mixing undoes column mixing |
| AesTables.InvMcolLinear | AES/src/aes.c:429-435 | Inverse column mixing distributes over exclusive or |
| Aes.FtSumMixes | AES/src/aes.c:415 | Four turned table entries are the mixed column of four substituted bytes |
| Aes.ItSumMixes | AES/src/aes.c:415 | The same for the inverse tables |
| Aes.ImSumMixes | AES/src/aes.c:429-435 | The table form of inverse mixing is the form without tables |
| Aes.ShiftsRows | AES/src/aes.c:609-611 | The column selectors shift row r by r columns, forward and back |
| Aes.FwdRndIs | AES/src/aes.c:617-618 | A table round is substitute, shift rows, mix columns, add key |
| Aes.FwdLrndIs | AES/src/aes.c:628-629 | The last table round is the same without mixing |
| Aes.InvRndIs | AES/src/aes.c:617-618 | A table inverse round is the round of the equivalent inverse cipher |
| Aes.InvLrndIs | AES/src/aes.c:628-629 | The last inverse round is the same without mixing |
| Aes.RconTable | AES/include/aestab.h:122-132 | The round constants are the powers of x |
| Aes.Stretch4 | AES/src/aes.c:523-531 | Four steps of the unrolled schedule give the expanded key of section 5.2 of FIPS 197 |
| Aes.Stretch6 | AES/src/aes.c:533-545 | The same for keys of six words |
| Aes.Stretch8 | AES/src/aes.c:547-563 | The same for keys of eight words |
| Aes.BackwardUndoes | AES/src/aes.c:709-827 | After i inverse rounds the state is that of the forward rounds from the other end |
| Aes.InvCipherInverts | AES/src/aes.c:709-827 | The equivalent inverse cipher inverts the cipher, for every key and state |
| Aes.DecryptInverts | AES/src/aes.c:709-827 | Decrypting an encrypted block gives the block, for every key of 4, 6 or 8 words and either byte order |
| Aes.CipherIsFold | AES/src/aes.c:721-739 | The cipher is the first round key added, a full round for each of the next 9, 11 or 13, and a last one without mixing, by table 5 of FIPS 197 |
| Aes.BlockIsColumns | AES/src/aes.c:709-767 | Byte r of column c of the state is byte 4c + r of the block, in and out |
| Aes.KeyIsWords | AES/src/aes.c:512-550 | The same for the words of the key |
| AesVector.Keys | AES/src/aes.c:547-563 | The key schedule gives the fifteen round keys of Appendix C.3 of FIPS 197 |
| AesVector.Rounds | AES/src/aes.c:721-739 | The rounds give the states printed there |
| AesVector.Example | AES/src/aes.c:709-767 | The example key turns the example block into the cipher block printed there |
| Aes.Context.Reverse | AES/src/aes.c:566-588 | The decryption key is the reversed encryption key, mixed but for its ends |
| Aes.Context.SetKey | AES/src/aes.c:492-591 | Exactly the lengths 16, 24 and 32 with a direction are accepted; both schedules then hold the expanded key, and the number of rounds is 10, 12 or 14 |
| Aes.Context.EncRounds | AES/src/aes.c:721-739 | The unrolled rounds compute the cipher |
| Aes.Context.DecRounds | AES/src/aes.c:781-799 | The unrolled inverse rounds compute the inverse cipher |
| Aes.Context.Encrypt | AES/src/aes.c:709-767 | Encrypts the block under the loaded key: ten, twelve or fourteen rounds, each with its round key, the last without mixing; or refuses a context without direction |
| Aes.Context.Decrypt | AES/src/aes.c:769-827 | Decrypts the block under the loaded key, or refuses |
| Cbc.PlainUndone | AES/src/main.c:131-170 | Unchaining undoes chaining block by block, for any block cipher that is inverted |
| Cbc.HeaderLength | AES/src/main.c:126-129 | The header byte keeps the length modulo 16 |
| Cbc.HeaderNoise | AES/src/main.c:126-129 | Above the length the header keeps the random bits |
| Cbc.EncodedBlocks | AES/src/main.c:115-174 | The file starts with the initial vector, and each further block is the cipher of the padded plain text block and the block before, bit by bit exclusive or |
| Cbc.EncodedLength | AES/src/main.c:176-251 | The header and the number of blocks give the exact length back |
| Cbc.DecodeEncode | AES/src/main.c:115-251 | Decoding an encoded message gives the message, for every length and initial vector and any inverted block cipher |
| Cbc.AesFileRoundTrip | AES/src/main.c:115-251 | The same for AES itself |
| Cbc.EncFile | AES/src/main.c:115-174 | Writes the encoding of the message and returns its length |
| Cbc.DecFile | AES/src/main.c:176-251 | Writes the decoded message and returns its length, or refuses what is too short or not whole blocks |
| Spanning.ConnectedIffPaths | olden_mst/src/main.c:89-119 | Connected by cuts is connected by paths |
| Spanning.NearestNotAbove | olden_mst/src/main.c:89-119 | Adding the nearest outside vertex never costs more than any tree would: the cut property |
| Spanning.TreeGrows | olden_mst/src/main.c:89-119 | A spanning tree with one crossing edge more spans one vertex more |
| EdgeHash.Hash.constructor | olden_mst/src/hash.c:34-47 | A new table has no entries |
| EdgeHash.Hash.HashLookup | olden_mst/src/hash.c:49-62 | The latest entry under the key, or 0 |
| EdgeHash.Hash.HashInsert | olden_mst/src/hash.c:64-79 | Puts an entry on top of its key's and leaves the other keys alone |
| EdgeHash.Hash.HashDelete | olden_mst/src/hash.c:81-96 | Takes the top entry off its key's and leaves the other keys alone |
| Prim.BlueRule | olden_mst/src/main.c:15-83 | Takes the chosen vertex out of the list, brings every distance up to date, and gives a vertex at least distance |
| Prim.NearestGrows | olden_mst/src/main.c:61-72 | A relaxed distance is the least edge into the grown tree |
| Prim.KeepsGrowing | olden_mst/src/main.c:106-117 | One round keeps: list, tree and cost belong together, and no spanning tree costs less |
| Prim.GrownIsMinimum | olden_mst/src/main.c:89-119 | When no vertex is left the cost is that of a minimum spanning tree |
| Prim.ComputeMst | olden_mst/src/main.c:89-119 | The weight of a minimum spanning tree of every complete graph with symmetric positive weights below the sentinel |
| Labels.SimpleBelowNone | dijkstra/src/main.c:255-264 | No simple walk reaches the mark for unreached |
| Labels.Improved | dijkstra/src/main.c:257-263 | An improvement keeps the search invariant |
| Labels.Passed | dijkstra/src/main.c:253-265 | An edge that does not improve keeps the search invariant |
| Labels.NoWalkShorter | dijkstra/src/main.c:250-266 | When the queue is empty no walk is shorter than its label |
| Labels.SearchSolves | dijkstra/src/main.c:250-266 | When the queue is empty every label is the distance, unreached nodes keep the mark, and predecessor links are exact and acyclic |
| Dijkstra.Router.Enqueue | dijkstra/src/main.c:177-203 | Appends an item to the linked queue |
| Dijkstra.Router.Dequeue | dijkstra/src/main.c:206-220 | Takes the first item off the linked queue |
| Dijkstra.Router.RelaxAll | dijkstra/src/main.c:253-265 | Scanning a node's edges keeps the invariant and lowers a label or shortens the queue |
| Dijkstra.Router.Dijkstra | dijkstra/src/main.c:228-273 | Terminates with the distances of every node from the start, or with nothing reached when start and end are the same |
| Dijkstra.Router.PrintPath | dijkstra/src/main.c:167-174 | Terminates and prints a shortest walk |
| Qsort.Med3IsMedian | libuser/src/qsort.c:139-145 | The chosen index holds a median of the three |
| Qsort.VecSwap | libuser/src/qsort.c:106-137 | Exchanges two blocks and nothing else |
| Qsort.SkipUp | libuser/src/qsort.c:180-187 | The first inner loop stops at the first larger element or where the scans meet, with the equal ones set aside |
| Qsort.SkipDown | libuser/src/qsort.c:188-195 | The second inner loop does the same from the right end |
| Qsort.EqualLeft | libuser/src/qsort.c:180-187 | Setting an equal element aside keeps the four-way division |
| Qsort.EqualRight | libuser/src/qsort.c:188-195 | The same from the right end |
| Qsort.Exchange | libuser/src/qsort.c:196-201 | Exchanging a larger and a smaller element keeps the four-way division |
| Qsort.Partition | libuser/src/qsort.c:175-202 | Divides the range into equal, smaller, larger, equal, permuting only inside it |
| Qsort.Gathered | libuser/src/qsort.c:211-215 | The two block moves bring the equal elements into the middle |
| Qsort.InsertionSort | libuser/src/qsort.c:156-162 | Sorts and permutes the range |
| Qsort.Sort | libuser/src/qsort.c:148-225 | Sorts and permutes the range, for every length and total preorder, and terminates |
| ActiveQueue.OncePrefix | kernel/src/sched.c:54-62 | The membership test finds exactly the activations in the prefix, each there once |
| ActiveQueue.AddKeeps | kernel/src/sched.c:54-57 | Adding keeps the two arrays inverse and adds exactly that activation |
| ActiveQueue.DelKeeps | kernel/src/sched.c:58-62 | Deleting keeps the two arrays inverse and removes exactly that activation |
| ActiveQueue.RoundOrder | kernel/src/sched.c:54-62 | An activation that is added comes last in the round, and one that is deleted is replaced by the last |
| ActiveQueue.DeleteIff | kernel/src/sched.c:70-76 | `sched_delete` removes exactly the given activation if and only if that is in the prefix or the test says it is not |
| ActiveQueue.DeleteLosesAnother | kernel/src/sched.c:70-76 | A case where it removes another one instead |
| ActiveQueue.PicksEachOnce | kernel/src/sched.c:92-98 | k picks over k active activations pick each once |
| KernelModel.QueueBounds | kernel/src/msg.c:39-50 | A queue is full at 15 messages and empty at none |
| KernelModel.PutAppends | kernel/src/msg.c:52-73 | Putting appends to the pending messages |
| KernelModel.GetTakes | kernel/src/msg.c:81-103 | Taking removes the oldest pending message |
| KernelModel.RescheduleKeeps | kernel/src/sched.c:100-123 | Rescheduling ends with a runnable current activation, and halts if and only if none is active |
| KernelModel.PushKeeps | kernel/src/msg.c:52-79 | A message wakes a waiting receiver and keeps the invariant |
| KernelModel.CCallKeeps | kernel/src/ccall.c:53-133 | A call keeps the invariant and answers nothing |
| KernelModel.CReturnKeeps | kernel/src/ccall.c:135-173 | A return keeps the invariant and answers exactly its call |
| KernelModel.AnswerAcceptedIff | kernel/src/ccall.c:149-157 | The expected answer to a blocked caller is accepted if and only if its number is below 2 to the 28 |
| KernelModel.AnswerRefused | kernel/src/ccall.c:149-157 | The call numbered 2 to the 28 is expected under that number, and its right answer is refused |
| KernelModel.NumbersRepeat | kernel/src/ccall.c:40-42 | After 2 to the 32 calls a number that was given out is given out again |
| KernelModel.EndIff | kernel/src/act.c:145-156 | Terminating an activation keeps the invariant if and only if the test of `sched_delete` tells membership rightly |
| KernelModel.TerminateIff | kernel/src/act.c:145-156 | Termination with the reschedule after it leaves a running system if and only if the test of `sched_delete` tells membership rightly |
| KernelModel.StepIff | kernel/src/sched.c:34-123 | A step that does not stop the kernel keeps the invariant if and only if it is not a termination in which the test of `sched_delete` misleads; no step takes an answer back |
| KernelModel.BootRuns | kernel/src/act.c:46-69 | The system starts in the invariant |
| KernelModel.RunsKeepInv | kernel/src/sched.c:34-123 | The invariant holds in every state of every run in which that test does not mislead |
| KernelModel.AnswerWakes | kernel/src/ccall.c:135-173 | An accepted return finds the caller blocked on that very call, which was open before and is closed after |
| KernelModel.AnsweredOnce | kernel/src/ccall.c:135-173 | In every run each call is answered at most once |
| KernelModel.Delivery | kernel/src/msg.c:39-103 | In every run the messages popped are those pushed, in order, with at most 15 pending |
| KernelModel.StaleSlotReached | kernel/src/sched.c:58-76 | A run of four steps from boot to a state in which terminating an idle activation breaks the invariant |
| KernelModel.InterruptsDeliver | kernel/src/interrupts.c:59-76 | Each activation gets one message for every pending line it handles, in order, and no others |
| KernelModel.InterruptsHaltIff | kernel/src/interrupts.c:59-76 | The kernel stops if and only if some activation has no room for the messages of its lines |
| KernelEffects.StepRefines | kernel/src/sched.c:34-123 | Every step is one of a machine that knows only statuses, registers and the messages sent and taken: the arrays and ring buffers compute nothing else |
| KernelEffects.ScheduleLoads | kernel/src/sched.c:34-42 | Who becomes runnable from schedulable has the arguments, identifier and token of its oldest message in its registers and its own v1; no other registers change |
| KernelEffects.RescheduleHandsOver | kernel/src/sched.c:100-123 | The hint runs next if it is active, else the next of the active ones in turn |
| KernelEffects.CallIs | kernel/src/ccall.c:53-133 | What each kind of call sends to whom, what becomes of the caller, who runs next, and when the kernel stops |
| KernelEffects.CallSends | kernel/src/ccall.c:53-92 | A call that reaches its callee and finds room appends exactly its arguments, identifier and token, of a new number if it is synchronous; any other call sends nothing |
| KernelEffects.CallFails | kernel/src/ccall.c:53-85 | A refused call changes only its caller's registers; one that finds no room sets v0 to 0, or stops the kernel if it is synchronous |
| KernelEffects.CallBlocks | kernel/src/ccall.c:87-92 | A synchronous caller is blocked on its new number, and a callee that can run runs next |
| KernelEffects.CalleeStarts | kernel/src/ccall.c:73-101 | A callee that waited starts with the arguments, the identifier and the token of the call |
| KernelEffects.ReturnIs | kernel/src/ccall.c:135-173 | Which answers are taken, what they change, and who runs next |
| KernelEffects.CallerGets | kernel/src/ccall.c:149-173 | The caller runs next, with the c3, v0 and v1 of the callee and otherwise its own registers |
| KernelEffects.TerminateIs | kernel/src/act.c:145-156 | The activation is dead, and if it ended itself another one runs |
| KernelEffects.RegisterIs | kernel/src/act.c:86-133 | The next free slot is taken, with the given registers, waiting, without messages |
| KernelEffects.InterruptsAre | kernel/src/interrupts.c:59-76 | Each pending line with a handler writes v0 and a0 of the kernel's frame and sends its arguments |
| KernelEffects.BootIs | kernel/src/act.c:46-69 | After boot only the first activation can run, nobody has a message and no call is open |
| KernelEffects.StepReceives | kernel/src/msg.c:81-103 | In every step who takes a message starts with it, and nobody starts without the one that made it schedulable |
| KernelEffects.RunDelivers | kernel/src/msg.c:52-103 | In every run the k-th message an activation takes is the k-th sent to it, and is in its registers when it starts |
| Kernel.Tables.constructor | kernel/src/act.c:46-69 | The tables after boot are in the invariant |
| Kernel.Tables.SchedD2A | kernel/src/sched.c:78-83 | The tables end as after `KernelModel.D2A`, which adds exactly that activation to the active ones and keeps the invariant |
| Kernel.Tables.SchedA2D | kernel/src/sched.c:85-90 | The tables end as after `KernelModel.A2D`, which takes exactly that activation out of the active ones and keeps the invariant |
| Kernel.Tables.SchedDelete | kernel/src/sched.c:70-76 | The tables end as after `ActiveQueue.Delete`, with the test as it is; `DeleteIff` says when that is right |
| Kernel.Tables.PickNext | kernel/src/sched.c:92-98 | The next of the active prefix in turn, or 0 if it is empty, so that `PicksEachOnce` applies |
| Kernel.Tables.SchedSchedule | kernel/src/sched.c:34-42 | The tables end as after `KernelModel.Schedule`, of which `ScheduleLoads` says what is in the registers and the queue |
| Kernel.Tables.SchedReschedule | kernel/src/sched.c:100-123 | The tables end as after `KernelModel.Reschedule`, of which `RescheduleHandsOver` says who runs, or the kernel halts because nobody is active; it terminates |
| Kernel.Tables.MsgPush | kernel/src/msg.c:52-79 | Refuses a full queue and leaves everything as it was, or appends the message and wakes a waiting receiver as `KernelModel.Push` says |
| Kernel.Tables.ActWait | kernel/src/act.c:176-184 | The activation waits or stays schedulable by its queue, and another one runs, as `KernelModel.Wait` says |
| Kernel.Tables.ActRegister | kernel/src/act.c:86-133 | A new activation waits with an empty queue, or the table is full; the invariant stays |
| Kernel.Tables.ActTerminate | kernel/src/act.c:145-156 | The tables end as after `KernelModel.Terminate`; they are in the invariant if and only if the test of `sched_delete` told membership rightly |
| Kernel.Tables.GetSyncToken | kernel/src/ccall.c:39-51 | The token carries the next number, which is now the one its caller expects |
| Kernel.Tables.KernelCCall | kernel/src/ccall.c:53-133 | The tables end as after `KernelModel.CCall`, of which `CallIs` and `CallSends` say what is sent and who runs; the invariant stays |
| Kernel.Tables.KernelCReturn | kernel/src/ccall.c:135-173 | The tables end as after `KernelModel.CReturn`, of which `ReturnIs` and `CallerGets` say which answers are taken and what the caller gets; the invariant stays |
| Kernel.Tables.InterruptOne | kernel/src/interrupts.c:66-72 | One pending line becomes a message to its handler as `KernelModel.Interrupt` says, and the invariant stays |
| Kernel.Tables.InterruptOthers | kernel/src/interrupts.c:59-76 | All seven lines in turn, as `KernelModel.Interrupts` says: lines that are not pending or have no handler are passed over, a full queue stops the kernel, and otherwise the invariant stays |
| Mmap.ChunksDisjoint | memmgt/src/mmap.c:104-113 | Two chunks share no page |
| Mmap.SetStatus | memmgt/src/mmap.c:167-168 | A new status in a record reaches the chunk that starts at that page, and none if the page lies inside a chunk; every other chunk stays |
| Mmap.CutChunk | memmgt/src/mmap.c:116-124 | Splitting a chunk gives a used and an unused one that tile it, and leaves every other as it was |
| Mmap.CutUses | memmgt/src/mmap.c:116-124 | A split takes just the pages asked for into use |
| Mmap.FreeUses | memmgt/src/mmap.c:167-168 | Freeing takes just the pages of that chunk out of use |
| Mmap.SparePage | memmgt/src/mmap.c:95-102 | The pages asked for hold the length and leave one page over |
| Mmap.LeastPages | memmgt/src/mmap.c:95-102 | And no fewer would |
| Mmap.Allocator.constructor | memmgt/src/mmap.c:177-196 | One unused chunk of all pages |
| Mmap.FirstFitIs | memmgt/src/mmap.c:104-114 | The search passes over no unused chunk that is long enough, and fails if and only if there is none |
| Mmap.Allocator.Search | memmgt/src/mmap.c:104-114 | The first page of the first chunk that fits, or the end of the pool |
| Mmap.Allocator.MMap | memmgt/src/mmap.c:54-136 | First fit, and a live mapping of the length asked for; fails if and only if the flags are wrong or no unused chunk is long enough, and then nothing changes |
| Mmap.Allocator.MUnmap | memmgt/src/mmap.c:150-169 | Accepts any page whose record fits the length and a spare page; frees the chunk at that page if there is one, and otherwise changes no chunk |
| Mmap.MapUnmap | memmgt/src/mmap.c:95-169 | A mapping of a whole number of pages can be unmapped by its length, any other cannot |
| Mmap.ServeKeeps | memmgt/src/mmap.c:54-169 | Mapping and unmapping keep: the chunks tile the pool, and every live mapping is a used chunk of the pages wanted for its length |
| Mmap.RunsKeepLive | memmgt/src/mmap.c:54-169 | That holds in every state of every sequence of mappings and unmappings |
| Mmap.MapMakesLive | memmgt/src/mmap.c:54-136 | A mapping that succeeds is live with its length, at a page where no live mapping was, and the others stay live |
| Mmap.MappingKept | memmgt/src/mmap.c:54-169 | Over a run, a live mapping stays a used chunk of its size until its own page is unmapped |
| Mmap.MappingsApart | memmgt/src/mmap.c:54-136 | In a state where every live mapping is a used chunk, any two live mappings are disjoint and inside the pool, and after the bytes of each there is a page to spare |
| Adpcm.ErrorBound | adpcm/src/adpcm.c:97-147 | Within twice the step the new prediction misses the sample by at most an eighth of the step and two, clamping included |
| Adpcm.OverloadCatchesUp | adpcm/src/adpcm.c:97-152 | Beyond it the prediction makes its longest move towards the sample without passing it, and the step grows by eight places |
| Adpcm.CodeIsGreatest | adpcm/src/adpcm.c:100-126 | The code has the sign of the difference and the greatest magnitude whose level does not pass it |
| Adpcm.MovesByEighths | adpcm/src/adpcm.c:110-137 | Magnitude k moves the prediction by 2k + 1 eighths of the step less the bits cut off, with the sign of the code, clamped |
| Adpcm.IndexMoves | adpcm/src/adpcm.c:55-58 | The place in the step table goes back by one for small magnitudes and on by 2, 4, 6 or 8 for the others, within the table |
| Adpcm.StepsGrow | adpcm/src/adpcm.c:60-70 | The steps grow by a tenth from place to place, but for rounding, from 7 to 32767 |
| Adpcm.ClampIsNearest | adpcm/src/adpcm.c:132-137 | Clamping takes the nearest sample |
| Adpcm.UnpackPack | adpcm/src/adpcm.c:154-165 | The codes come out of the bytes as they went in, for odd numbers too |
| Adpcm.ByteHolds | adpcm/src/adpcm.c:154-165 | The code of an even place is in the upper half of its byte, that of an odd place in the lower |
| Adpcm.LockStep | adpcm/src/adpcm.c:72-244 | Decoding a coder's bytes from the same state gives the coder's own predictions and final state |
| Adpcm.DecodedClose | adpcm/src/adpcm.c:72-244 | Every decoded sample of a run is within the bound wherever the difference was within twice the step |
| Adpcm.Quantize | adpcm/src/adpcm.c:100-147 | The shifts and subtractions compute the code, and the prediction the decoder will make of it |
| Adpcm.Coder | adpcm/src/adpcm.c:73-169 | Writes the codes of the samples, two to a byte, and leaves the state the decoder will have |
| Adpcm.Decoder | adpcm/src/adpcm.c:172-244 | Writes the predictions of the codes and leaves the last |
| Crc32.TableIsBitwise | CRC32/src/main.c:77-121 | Each of the 256 entries is eight steps of the shift register |
| Crc32.UpdateIsEightBits | CRC32/include/crc.h:17 | The table step is eight steps of the shift register after adding the octet |
| Crc32.RunIsSerial | CRC32/src/main.c:156-169 | The table-driven register is the bit-serial one over the message bits, lowest first |
| Crc32.CrcIsRemainder | CRC32/src/main.c:12-22 | The checksum is the complemented remainder of long division of the message bits with all-ones preset |
| Crc32.CheckValue | CRC32/src/main.c:12-22 | The checksum of the digits 1 to 9 is the usual check value |
| Crc32.BurstDetected | CRC32/src/main.c:12-22 | Messages that differ only within 32 successive bits have the same checksum only if they are the same |
| Crc32.FrameAccepted | CRC32/src/main.c:12-22 | A receiver that runs the register over message and check bits sees the fixed residue if and only if the check bits are the checksum |
| Crc32.SameBits | CRC32/src/main.c:156-169 | A message's bits determine it |
| Crc32.Crc32Buf | CRC32/src/main.c:156-169 | The checksum of the buffer |
| Crc32.Crc32File | CRC32/src/main.c:128-154 | The same checksum through a register of eight big-endian bytes |

## Left out

- Disk errors, protected or removed media: the disk is an array of sectors that always answers.
- `f_open`, directories, names, labels, `f_truncate`, `f_sync`, `f_expand`: a file is opened here on a chain and a size.
- exFAT, long names, fast seek, tiny buffers, file locks: compiled out in the shipped configuration.
- FatVolume.FATFS.constructor: the geometry comes from `FatMake.FindVolume`; FAT32 volumes with so many clusters that their numbers reach the marks for bad and last clusters are outside `Geometry.Valid`.
- FatFile.FIL.Seek: does not say what bytes a file grown by seeking holds beyond its old end; the source leaves whatever the clusters held.
- FatFile.Session: one open file at a time; `FatFile.FIL.OthersStay` says what it leaves alone, but two files that are open together do not see each other's buffers here.
- FatMake.FindVolume: always mounts afresh, takes no forced partition, and does not read the free counts of FAT32's information sector.
- FatMake.MountIff: boot sectors whose fields add up to more than 32 bits hold; `ReadBpb` cuts their sums off as the source does, but they have no law of their own.
- FatMake.PlanIff: the same for volumes of 2 to the 30 clusters or more.
- FatMake.Drive.MakeFs: erase blocks of one sector, as the repository's driver reports, and no partitions made before.
- BisortTree.BisortSorts: with ties above three levels only the values, nodes and shape are promised, because `Bitonic.SortMisses` shows the order is not.
- Reading a tree back with `InOrder` and the random values of `RandTree`: parameters.
- AES with blocks of 24 or 32 bytes and builds with other table choices: compiled out; the byte order of words is a parameter.
- Building the random complete graph (`olden_mst/src/makegraph.c`): what it builds is what `Prim.ComputeMst` asks for; the sum of the weights is an unbounded integer.
- Dijkstra.Router.Dijkstra: at most 9999 nodes, since node numbers and the mark for none share one type; the source has 100.
- Qsort.Sort: elements instead of bytes, so the width of the exchanged words and the casts of block lengths to `int` are not modelled.
- Sealed references are pairs of caller and number; permissions, capability bounds, names and skipped instructions are not modelled.
- KernelModel.StepIff: calls until their 32-bit number would wrap around to 0; from there on numbers repeat (`KernelModel.NumbersRepeat`), and a number no longer names one call.
- Kernel.Tables.KernelCCall: the same bound on the number of synchronous calls.
- Kernel.Tables.InterruptOthers: the handlers of the lines are a parameter; masking a line is left to the device, and of the timer only its rescheduling is a step.
- `act_revoke` and the queries for references, identifiers and status: would only add easy members.
- Mmap.Allocator.MMap: permissions of the returned pointer, owners and the unused `prev` field are not modelled, and page counts do not overflow.
- Mmap.Allocator.MUnmap: any page of the pool, but no address between pages, whose offset the source asserts away; `mfree` is the same without the length test; the allocator never joins chunks.
- The SHA, perimeter and tree-add benchmarks, `malloc.c`, patricia tries, formatted output, devices, boot and loading: not part of this model.
