# Storage, scheduling and memory of a small x86-64 kernel, verified in Dafny

The project models the parts of the kernel whose correctness spans many operations, and
proves what those parts are for.

* **Write-ahead journal** (`Device`, `Journal`, `JournalOps`, `JournalScan`,
  `JournalCrash`, `JournalSpace`, `MetaOps`, `WriteThrough`). The device is an array of sectors
  written one at a time; every operation is proved to issue a known list of sector writes, and a
  crash may fall between any two of them, including between the writes of a recovery. The main theorems are crash
  atomicity of a transaction and, for filesystem operations of any length, exactly which of
  their blocks survive a crash.
* **Filesystem block map** (`SfsTree`, `SfsAlloc`, `SfsFile`, `SfsTruncate`). Every pointer
  of every file, at all three levels, is named by a slot; soundness says each is null or an
  allocated block that belongs to that pointer alone. Allocation, read, write and truncate
  are proved against the file as a sequence of bytes, with exact counts of the blocks taken, on
  stores with any number of free blocks.
* **Checker** (`Fsck`). The bitmap passes, on volumes whose pointers may be anything.
* **Block cache** (`BlockCache`). Coherence with plain devices over arbitrary well-formed
  cache states and any pattern of refused device writes, what reaches the devices, and which
  block loses its line in terms of the order in which clients used the blocks.
* **Run queues** (`RunQueue`, `Scheduler`, `Balance`). Intrusive lists, counters and the
  bitmap index, against plain sequences of threads.
* **Thread life and grace periods** (`Retirement`, `ThreadLife`, `Rcu`). Transition systems whose
  theorems quantify over every run: safety, what each step does to each thread, and that from
  every state a live thread can run and be reaped and a callback can be executed.
* **Allocators** (`PagePool`, `Pmm`, `AllocatorRuns`, `SlabPool`, `Slab`, `KernelHeap`,
  `HeapRuns`). Ownership partitions kept by every locked section, and over whole runs of requests
  to the page allocator and to the kernel heap on top of it.
* **Streaming** (`Sha256`, `ShaFips`, `ShaConstants`, `ShaStream`, `Pipe`). The hash against
  FIPS 180-4 (sections 3.1, 4.1.2, 4.2.2, 5.1.1, 5.3.3 and 6.2) stated as equations, with the
  constants derived from the primes; the pipe against an unbounded queue.

`Bits` and `Seqs` hold the bitmaps and the sequence lemmas the others share.
`dafny verify dfyconfig.toml` checks everything.

## How the models read

Classes carry the state that the kernel updates in place; a ghost field or a specification
function gives its meaning, and each method's postcondition says what it does to that
meaning. A section under a lock is one method or one step; it is proved for every state
that satisfies the invariant, so it may be interleaved with any other section. Answers of
the environment (a refused device write, a lock that is busy, the page offered by the page
allocator, the distance table) are parameters.

Things the proofs brought out:

* `sfs_bmap_alloc` scans whole bitmap blocks, and formatting leaves the bits past the data
  area clear. Once the data area is full it hands out blocks past the end.
  `SfsAlloc.AllocBlock`, `SfsAlloc.GetBlock` and `SfsFile.Write` state exactly when the block
  returned and every pointer of the tree stay in the data area, and exactly when a call fails;
  `SfsAlloc.FullStoreAllocatesPastEnd` gives the input.
* `sfs_vfs_truncate` clears direct pointers only up to the recorded end of the file.
  `SfsTruncate.Truncate` says exactly what is freed in every case, and that nothing stays mapped
  past the new end iff no direct pointer was set past the old one; `SfsTruncate.LooseFileCut` is
  the input.
* `sfs_vfs_write` does not clear a data block it allocates, so writing part of a block in a hole,
  or past the end of the file, can show what the block held before. `SfsFile.Write` states exactly
  what shows, and the condition on the file and the store before the call under which the write is
  a splice; `SfsFile.StaleByte` is the input.
* A write at an offset of 4 GiB or more stores nothing and sets the size to the low 32 bits of the
  offset (`SfsFile.WriteFar`).
* The inner scan of `journal_recover` steps one slot over foreign DATA entries and lands on their
  payloads; `JournalScan.MisreadsIff` says exactly when it takes one for a descriptor,
  `JournalScan.FirstWrongWrite` what it then writes, and `JournalScan.ImitationExample` is a device.
* A filesystem operation that logs more than 126 blocks commits in the middle, so it is atomic
  only in batches; `MetaOps.AtomicIff` gives the exact condition and `MetaOps.LongOpNotAtomic` an
  operation.
* `sfs_write_meta` also writes each block in place before the commit, and nothing takes that back.
  `WriteThrough.EarlyWritesStay` says what any such writes that reach the device leave behind; if
  all of them do, the operation is atomic only if no first part of it shows
  (`WriteThrough.ThroughAtomicIff`, `WriteThrough.TwoBlocksNotAtomic`).
* `cache_steal` takes half of a cache rounded down, so `pmm_alloc_page` fails while every other
  CPU has one free page cached (`Pmm.Pages.AllocPage`).
* `kfree` ignores a block of more than 2 to the 20 pages (`KernelHeap.Memory.Free`).
* The comment in `sched_balance_push` speaks of the lowest populated priority; the code takes
  the highest-numbered one, and so does the model.
* `cache_evict` considers only valid lines, so a cache that starts empty never uses more than
  its first line; `BlockCache.Cache.ReadBlock` and `BlockCache.Cache.WriteBlock` keep that.
* `block_try_sync` marks a line clean even if its device refused the write, and a failed
  device read leaves a line claiming a block with another block's data.
  `BlockCache.Cache.TrySync` and `BlockCache.Cache.ReadBlock` state exactly when the cache stays in
  order; `BlockCache.TrySyncExample` and `BlockCache.FailedReadExample` give the inputs.
* Aging and priority changes put a ready thread on a queue even if it was on none, for
  instance one that another CPU has just picked. `Balance.Age` and `Balance.SetPriority` say
  exactly which threads join the queues; `Balance.PickedThenRaised` and `Balance.PickedThenAged`
  are the inputs.

## Model

| member | source | states |
|---|---|---|
| `Device.RedoAfterPrefix` | os/src/kernel/journal.c:266-289 | redoing a write list after any prefix of it gives the same device as doing it once |
| `Journal.ComputeChecksum` | os/src/kernel/journal.c:37-41 | the xor loop computes the checksum that the next three rows describe |
| `Journal.ChecksumBit` | os/src/kernel/journal.c:37-41 | bit j of the checksum is bit j of 0xDEADBEEF flipped once for each of the words 0 to 126 that has bit j |
| `Journal.OneWordChanges` | os/src/kernel/journal.c:37-41 | two sectors that differ in one word have different checksums iff it is not the checksum word |
| `Journal.DamageFound` | os/src/kernel/journal.c:83-94 | a sealed sector with any one word changed, the checksum included, fails the test |
| `Journal.SealedOk` | os/src/kernel/journal.c:202-203 | a sealed superblock or descriptor passes its own checksum test |
| `Journal.ParseDescriptors` | os/src/kernel/journal.c:103-130 | a sealed descriptor parses as the entry it was made for and as no other entry of either kind |
| `Journal.SpaceIsFree` | os/src/kernel/journal.c:51-56 | the head and tail arithmetic of jspace, wrap included, is the number of free slots less one |
| `Journal.OutsideKeepsRing` | os/src/kernel/journal.c:282-284 | writes to blocks outside the journal keep every live entry |
| `Journal.PublishTail` | os/src/kernel/journal.c:201-204 | the superblock write that moves tail appends the entry already in the free slots, and nothing before it does |
| `Journal.PublishHead` | os/src/kernel/journal.c:291-294 | the superblock write that moves head drops exactly the entries before it |
| `JournalOps.Init` | os/src/kernel/journal.c:58-71 | leaves a well-formed empty ring |
| `JournalOps.Log` | os/src/kernel/journal.c:173-207 | succeeds iff three slots are free, and then appends one DATA entry by exactly three sector writes, none of them to a live slot |
| `JournalOps.LogCrash` | os/src/kernel/journal.c:190-204 | at every crash point inside a log the ring is the old one or the old one with the whole entry, and no target block has changed |
| `JournalOps.Commit` | os/src/kernel/journal.c:209-236 | succeeds iff one slot is free, and then appends one COMMIT entry and raises the sequence number |
| `JournalOps.CommitCrash` | os/src/kernel/journal.c:222-233 | the commit is durable exactly from its superblock write on |
| `JournalOps.FindLastCommit` | os/src/kernel/journal.c:245-262 | the slots parsed are the descriptors of the live entries in order, so never a payload, and the result is the slot after the last COMMIT |
| `JournalOps.ReplayCommitted` | os/src/kernel/journal.c:266-289 | the committed DATA entries are written home in log order |
| `JournalOps.Checkpoint` | os/src/kernel/journal.c:238-295 | on rings of any number of transactions, straddling the wrap or not, the writes are the fold of the DATA entries before the last COMMIT followed by one superblock write |
| `JournalOps.CheckpointCrash` | os/src/kernel/journal.c:264-294 | at every crash point of a checkpoint the whole ring is live until the last write, which leaves exactly the uncommitted suffix |
| `JournalOps.ReplayTxn` | os/src/kernel/journal.c:130-146 | the inner scan of recovery replays the entries of one transaction, though it steps one slot over foreign entries and lands on payloads |
| `JournalOps.ReplayRing` | os/src/kernel/journal.c:96-148 | the outer scan replays every committed transaction of the ring |
| `JournalOps.Recover` | os/src/kernel/journal.c:73-163 | recovery issues the replay writes and one superblock write, or nothing on a foreign superblock, and reports whether anything was replayed |
| `JournalOps.RecoverDamaged` | os/src/kernel/journal.c:83-94 | recovery of a sealed superblock of which one word other than the magic was damaged replays nothing, changes no target block and leaves an empty ring |
| `JournalOps.RecoverCrash` | os/src/kernel/journal.c:136-161 | at every crash point of recovery the ring is intact until the superblock write empties it |
| `JournalScan.MisreadsIff` | os/src/kernel/journal.c:130-146 | on rings with any payloads, the inner scan takes a slot for a descriptor of the transaction that is none iff a foreign payload before the COMMIT imitates one |
| `JournalScan.NoAliasIff` | os/src/kernel/journal.c:130-146 | the premise under which recovery is stated holds of a ring iff no scan of it misreads a slot |
| `JournalScan.FirstWrongWrite` | os/src/kernel/journal.c:130-146 | on a ring that is misread, the scan has written exactly the blocks of its transaction when it comes to the first imitating payload, and then writes the sector after that payload to the block the payload names |
| `JournalScan.ScanTurn` | os/src/kernel/journal.c:130-146 | one turn of the inner loop, on any ring, makes the step and the write that the statements about misreading speak of |
| `JournalScan.ImitationExample` | os/src/kernel/journal.c:130-146 | a device, for any two transaction numbers, whose ring holds two transactions of which the first stores a block that looks like a descriptor of the second: recovery misreads it and writes a COMMIT descriptor to a block that no entry names |
| `JournalCrash.LogAllCrash` | os/src/kernel/journal.c:173-207 | a crash inside the logging of a transaction leaves a prefix of its entries pending |
| `JournalCrash.PendingOutcome` | os/src/kernel/journal.c:73-163 | recovery of a ring without a commit, cut any number of times, changes no target block |
| `JournalCrash.CommittedOutcome` | os/src/kernel/journal.c:73-163 | recovery of a committed ring, cut any number of times, applies every update in log order |
| `JournalCrash.CrashAfter` | os/src/kernel/journal.c:173-295 | what ring a crash after k of the transaction's writes leaves, for every k |
| `JournalCrash.CrashAtomicity` | os/src/kernel/journal.c:73-295 | for every crash point of log, commit and checkpoint and every sequence of crashes of recovery itself, the recovery that completes leaves the target blocks exactly as before or with every logged block applied in order, according to whether the commit's superblock write happened |
| `JournalCrash.RunTransaction` | os/src/kernel/journal.c:165-295 | running a transaction through the operations issues exactly the writes the theorem quantifies over |
| `JournalCrash.RunRecovery` | os/src/kernel/journal.c:73-163 | running recovery on a ring leaves exactly the device the theorem speaks of |
| `JournalSpace.MetaJournal.BeginOp` | os/src/kernel/sfs.c:66-77 | nested begins count, the outermost one reads the sequence number |
| `JournalSpace.MetaJournal.EndOp` | os/src/kernel/sfs.c:79-90 | never fails for space; a nested end lowers the nesting by one, the outermost end empties the ring, applies its entries and issues exactly the commit's and the checkpoint's writes |
| `JournalSpace.MetaJournal.WriteMeta` | os/src/kernel/sfs.c:46-63 | never ends in a space error: with fewer than 126 live blocks it logs, otherwise it flushes the whole ring under the old number and logs under the next, with exactly those writes |
| `JournalSpace.MetaJournal.CommitAndCheckpoint` | os/src/kernel/sfs.c:51-53 | a commit after successful logs always fits, and the checkpoint applies the logged blocks in order |
| `JournalSpace.RecoveryMatchesCheckpoint` | os/src/kernel/journal.c:130-146 | on rings of any number of transactions with distinct numbers, recovery replays exactly what a checkpoint would |
| `MetaOps.OpCrash` | os/src/kernel/sfs.c:46-90 | for an operation of any length, a crash at any of its writes and any crashes of recovery, exactly the batches of 126 blocks whose commit was durable are in place and the ring is empty |
| `MetaOps.BatchReached` | os/src/kernel/sfs.c:50-59 | every batch boundary is where some crash leaves the operation |
| `MetaOps.AtomicIff` | os/src/kernel/sfs.c:46-90 | an operation is all or nothing under every crash iff each batch boundary inside it shows the old or the new blocks |
| `MetaOps.LongOpNotAtomic` | os/src/kernel/sfs.c:50-59 | a device and an operation that changes 127 blocks on it which is not atomic |
| `MetaOps.ShortOpAtomic` | os/src/kernel/sfs.c:46-90 | every operation that logs at most 126 blocks is crash atomic |
| `WriteThrough.EarlyWritesStay` | os/src/kernel/sfs.c:46-63 | home writes before the commit, in any order among the journal writes, are not taken back: a crash after any write before the commit leaves the device as before but for them, a crash after it the whole transaction on top of them, whatever crashes recovery itself |
| `WriteThrough.EarlyOldOrNewIff` | os/src/kernel/sfs.c:46-63 | if the early writes are of blocks of the transaction, a crash before the commit leaves all old or all new blocks iff the early writes alone do, and a crash after it always all new ones |
| `WriteThrough.ThroughCrash` | os/src/kernel/sfs.c:46-90 | with every home write straight on the device, a crash at any write leaves exactly the blocks written home so far |
| `WriteThrough.ThroughAtomicIff` | os/src/kernel/sfs.c:46-90 | such a transaction is crash atomic iff each first part of its blocks shows the old or the new device |
| `WriteThrough.TwoBlocksNotAtomic` | os/src/kernel/sfs.c:62-62 | two changed blocks are not atomic that way, though they are when the home writes wait for the checkpoint |
| `WriteThrough.RunThrough` | os/src/kernel/sfs.c:46-90 | logging each block and writing it home at once, then committing and checkpointing, issues exactly the writes these statements quantify over |
| `MetaOps.RunOp` | os/src/kernel/sfs.c:46-90 | an operation run through begin, write and end issues exactly the writes the crash theorem quantifies over |
| `SfsTree.PtrAfterSet` | os/src/kernel/sfs.c:213-306 | a pointer stored in an index block reads back and no other pointer of the block changes |
| `SfsTree.PtrBit` | os/src/kernel/sfs.c:213-306 | the byte order of a pointer: bit j of pointer i is bit j mod 8 of byte 4 i + j / 8 |
| `SfsTree.SlotFileBlock` | os/src/kernel/sfs.c:213-306 | leaf slots and file blocks 0 to 16523 are in bijection |
| `SfsTree.NoSharing` | os/src/kernel/sfs.c:144-153 | in a sound store no block is reachable from two inodes, levels or positions |
| `SfsTree.StorePtrEffect` | os/src/kernel/sfs.c:213-306 | hanging a fresh block into an index block changes one slot of one inode and nothing else |
| `SfsAlloc.BmapAlloc` | os/src/kernel/sfs.c:92-112 | the first clear bit of the bitmap blocks is set, or every bit was set |
| `SfsAlloc.NthUnique` | os/src/kernel/sfs.c:92-112 | the block that first fit comes to after n others is fixed by the bitmap |
| `SfsAlloc.FirstFitInRange` | os/src/kernel/sfs.c:92-112 | the first clear bit lies below the total iff some bit below the total is clear |
| `SfsAlloc.AllocBlock` | os/src/kernel/sfs.c:144-153 | fails iff no bit of the bitmap is clear; the block was unused, and is in the data area iff a bit there was clear |
| `SfsAlloc.FullStoreAllocatesPastEnd` | os/src/kernel/sfs.c:92-112 | a concrete full store on which the scan returns a block past the end |
| `SfsAlloc.FreeBlock` | os/src/kernel/sfs.c:155-164 | afterwards a block is in use iff it was and is not the one freed; nothing else changes |
| `SfsAlloc.GetBlock` | os/src/kernel/sfs.c:213-306 | for every store: keeps soundness, every existing pointer of every inode and the contents of every block that is not an index block; fails iff fewer bits are clear than blocks are missing on the path; takes exactly that many, the first unused ones in the bitmap, and the last of them is the data block; the block returned and all pointers are in the data area iff it has those blocks free or nothing past it is |
| `SfsFile.ReadBlockData` | os/src/kernel/sfs.c:308-316 | the size clamp never fires: the chunk is copied whole |
| `SfsFile.Read` | os/src/kernel/sfs.c:370-399 | returns exactly the requested slice of the file, holes as zeros, across all three pointer levels |
| `SfsFile.WriteChunk` | os/src/kernel/sfs.c:409-435 | one chunk is spliced into the file iff the file can be that large and as many bits are clear as its path misses blocks; exactly those pointers are filled |
| `SfsFile.RangeGrows` | os/src/kernel/sfs.c:407-435 | the need up to one more file block is the need before it plus what its path still misses once the blocks before it are mapped, so that shared index blocks count once |
| `SfsFile.Write` | os/src/kernel/sfs.c:401-444 | for every file, store and offset the size field can hold: which bytes are accepted and which block each file block then has is fixed by the state before; the accepted prefix is in place, every other position shows what the block now mapped there held before, other files keep their bytes; this is the old file grown by zeros with the prefix spliced in iff, before the call, the mapped blocks between the end and the offset hold zeros and the blocks that first fit will give an unmapped first and last block hold zeros around the bytes written; that holds for files without holes written inside or at their end; accepts everything iff the file can be that large and as many bits are clear as the touched paths have null pointers; takes exactly those blocks, and every pointer stays in the data area iff it has them free or nothing past it is |
| `SfsFile.WriteFar` | os/src/kernel/sfs.c:414-438 | from offset 4 GiB on nothing is written, but the size becomes the low 32 bits of the offset |
| `SfsFile.BlockAfter` | os/src/kernel/sfs.c:407-435 | after a write a file block has the block it had, or the unused block that first fit comes to after those for the null pointers up to it |
| `SfsFile.StaleIff` | os/src/kernel/sfs.c:401-444 | whether anything stale shows after a write is decided by the state before it: the condition in terms of the mapping afterwards is equivalent to the one a caller can test |
| `SfsFile.SpliceIff` | os/src/kernel/sfs.c:401-444 | a write is a splice iff in holes and past the old end the blocks now mapped held zeros outside the bytes written |
| `SfsFile.StaleByte` | os/src/kernel/sfs.c:401-444 | one byte written at offset 1 of an empty file over unused blocks of ones shows a one before it; the condition for a splice fails there |
| `SfsTruncate.FreeChain` | os/src/kernel/sfs.c:535-544 | frees the index block and every block it points to, and no other |
| `SfsTruncate.CutIndex` | os/src/kernel/sfs.c:585-596 | one pointer loop: frees and nulls exactly the pointers from the cut on |
| `SfsTruncate.CutDirect` | os/src/kernel/sfs.c:568-574 | the direct level of the cut |
| `SfsTruncate.CutIndirect` | os/src/kernel/sfs.c:576-606 | the indirect level; the index block is dropped iff its range starts at or past the cut, or something below it was freed and nothing is kept |
| `SfsTruncate.CutDouble` | os/src/kernel/sfs.c:608-680 | the double-indirect level; each index block is dropped under the same condition, the root iff its range starts at or past the cut or it had index blocks and all of them are dropped |
| `SfsTruncate.TreeCutSlots` | os/src/kernel/sfs.c:568-680 | every pointer of every level is as before or null, and which of the two is told from the tree before |
| `SfsTruncate.GoneIffDropped` | os/src/kernel/sfs.c:546-686 | a block is freed iff some pointer to it became null |
| `SfsTruncate.SoundAfterCut` | os/src/kernel/sfs.c:546-686 | the cut tree is sound again |
| `SfsTruncate.TruncatedContent` | os/src/kernel/sfs.c:546-686 | the file becomes a prefix of its bytes and no other file changes |
| `SfsTruncate.NothingLeft` | os/src/kernel/sfs.c:568-574 | nothing stays mapped past the cut iff no direct pointer was set past the recorded end |
| `SfsTruncate.LooseStoreSound` | os/src/kernel/sfs.c:426-431 | a sound store with a file of one byte that has a second direct pointer, as a write that fails after mapping its block leaves it |
| `SfsTruncate.LooseFileCut` | os/src/kernel/sfs.c:568-574 | cut to nothing, that file still has the block, whose bit stays set |
| `SfsTruncate.Truncate` | os/src/kernel/sfs.c:546-686 | for every file: keeps the mapping below the new end, unmaps everything else but direct pointers past the old end, drops each index block exactly when its range starts at or past the cut or something below it was freed and nothing is kept, and clears precisely the bits of what was dropped; nothing is mapped past the new end iff there was no such direct pointer |
| `Fsck.ScanInode` | os/src/kernel/fsck.c:70-157 | the walk of one inode marks exactly the data blocks it reaches |
| `Fsck.WalkInFileOrder` | os/src/kernel/fsck.c:70-157 | the walk meets the blocks of a file, at all three levels, in their order in the file |
| `Fsck.ScanInodes` | os/src/kernel/fsck.c:23-167 | the rebuilt bitmaps say exactly which blocks are referenced and which inodes are allocated and of a valid type |
| `Fsck.CheckBitmap` | os/src/kernel/fsck.c:171-215 | counts exactly the entries that differ; a repair leaves every entry below the total right and every bit above it alone |
| `Fsck.CheckVolume` | os/src/kernel/fsck.c:354-371 | reports no error iff both bitmaps are right; a repair sets each block bit iff the block is referenced and each inode bit iff the inode is live |
| `Fsck.RepairedIsClean` | os/src/kernel/fsck.c:354-371 | clearing the bits of dead inodes makes no further inode dead |
| `Fsck.KindsKept` | os/src/kernel/fsck.c:48-67 | a repair keeps an inode bit iff it was set and the kind is 1, 2 or 3, and sets the bit of every data block such an inode reaches |
| `Fsck.RepairTwice` | os/src/kernel/fsck.c:354-371 | a second repairing run reports zero errors |
| `Fsck.RepairRestoresSound` | os/src/kernel/fsck.c:354-371 | whatever the bitmap held, repair restores the filesystem's invariant on an unshared tree |
| `Fsck.SoundOnlyLeaks` | os/src/kernel/fsck.c:192-202 | on a sound volume only leaked blocks can be reported |
| `BlockCache.Cache.Lookup` | os/src/kernel/block.c:27-36 | finds the line of a block iff there is one, gives it the present time, and leaves the view alone |
| `BlockCache.Cache.ChooseVictim` | os/src/kernel/block.c:44-59 | the scan picks the first oldest clean line, else the first oldest valid one, else line 0 |
| `BlockCache.VictimIsOldest` | os/src/kernel/block.c:44-59 | that line is clean and least recently used whenever some line is clean, and least recently used otherwise |
| `BlockCache.VictimUsedFirst` | os/src/kernel/block.c:44-59 | in terms of the requests: the block that loses its line was last used before the block of every other clean line, or of every other line if none is clean |
| `BlockCache.TouchDates` | os/src/kernel/block.c:27-36 | a use makes the time of one line the present and leaves the order of last use of the others |
| `BlockCache.Cache.Evict` | os/src/kernel/block.c:38-74 | frees exactly the chosen line without changing the view; a device block is as before or what clients see; a refused write-back changes nothing |
| `BlockCache.Cache.ReadBlock` | os/src/kernel/block.c:79-100 | succeeds iff the block is cached, or the device grants the read and no write-back before it is refused, and then returns the view; the cache is in order afterwards, with the same view, iff the read was granted or not needed, the write-back was refused, or the line taken already held the block's data; counts as a use unless room could not be made |
| `BlockCache.Cache.WriteBlock` | os/src/kernel/block.c:107-121 | succeeds iff the block is cached or no write-back is refused; changes the view at that block alone, or not at all; a success counts as a use |
| `BlockCache.Cache.Read` | os/src/kernel/block.c:76-102 | returns the slice of the view, and fails only at a refused write-back |
| `BlockCache.Cache.Write` | os/src/kernel/block.c:104-123 | stores the blocks before the first refusal; a device block is as before or what clients saw or see there |
| `BlockCache.Cache.Sync` | os/src/kernel/block.c:141-155 | keeps the view in any case; success makes every device equal to it |
| `BlockCache.Cache.SyncDev` | os/src/kernel/block.c:177-191 | keeps the view; success makes that device equal to it |
| `BlockCache.Cache.Flush` | os/src/kernel/block.c:157-175 | keeps the view; success makes the named blocks equal to it |
| `BlockCache.Cache.TrySync` | os/src/kernel/block.c:127-139 | the cache is in order afterwards iff every line whose write was refused already equals its block |
| `BlockCache.TrySyncExample` | os/src/kernel/block.c:127-139 | an input on which unsaved data is marked clean |
| `BlockCache.FailedReadExample` | os/src/kernel/block.c:89-96 | an input on which the next read would be answered wrongly |
| `BlockCache.WriteBackKeeps` | os/src/kernel/block.c:62-66 | writing a dirty line to its device changes the device and not the view |
| `BlockCache.FillStores` | os/src/kernel/block.c:68-73 | reusing a clean line changes the view at the new block alone |
| `BlockCache.RunAll` | os/src/kernel/block.c:76-191 | every sequence of reads, writes, syncs and flushes answers as plain devices would and stops short only at a refused device write; each device block stays or receives what clients see, and a successful sync brings the devices up to the view; the times of the lines stay those of the last uses of their blocks |
| `RunQueue.OnePlace` | os/src/kernel/sched.c:155-178 | a queued thread stands at exactly one place of exactly one queue |
| `RunQueue.UnlinkKeepsLinks` | os/src/kernel/sched.c:245-262 | taking a thread out of the front, middle or end of its list keeps every link, priority and CPU right |
| `RunQueue.AppendKeepsLinks` | os/src/kernel/sched.c:164-177 | appending a thread keeps every link right |
| `RunQueue.UnlinkKeepsCounts` | os/src/kernel/sched.c:255-256 | heads, tails, counts and the total follow a removal |
| `RunQueue.AppendKeepsCounts` | os/src/kernel/sched.c:164-175 | heads, tails, counts, the total and the bitmap follow an append |
| `Scheduler.RunQueues.Add` | os/src/kernel/sched.c:155-178 | the thread joins the end of its priority's queue on that CPU; nothing else moves |
| `Scheduler.RunQueues.Remove` | os/src/kernel/sched.c:230-263 | a queued thread leaves its queue and a thread on no queue is left alone |
| `Scheduler.RunQueues.FindHighest` | os/src/kernel/sched.c:273-281 | equals a linear scan for the highest non-empty level |
| `Scheduler.RunQueues.TakeHead` | os/src/kernel/sched.c:497-509 | the head leaves its queue |
| `Scheduler.RunQueues.Steal` | os/src/kernel/sched.c:288-347 | asks the other CPUs in turn; takes the head of the highest queue of the first whose lock is free and whose head may run here, out of every queue, and nothing iff there is no such CPU |
| `Scheduler.StealsOne` | os/src/kernel/sched.c:288-347 | that thread is fixed by the queues, the masks and which locks are busy |
| `Balance.AddThread` | os/src/kernel/sched.c:200-216 | places a thread on the current CPU if its mask allows that or nothing, else on the first CPU it allows |
| `Balance.Pick` | os/src/kernel/sched.c:457-513 | exactly the returned thread leaves the queues, or the idle thread is returned and none does; the answer is fixed by the queues before: with nothing queued here what can be stolen, the idle thread only if nothing can; above level 150 a stolen thread of a lower number if there is one; else the head of the level found, or with the lock taken or the level emptied meanwhile what can be stolen then |
| `Balance.HeadOrStolen` | os/src/kernel/sched.c:457-513 | with a thread queued here and the lock free the answer is the head of the highest local queue, or, above level 150, a stolen thread of a lower number |
| `Balance.PickLocal` | os/src/kernel/sched.c:480-512 | the locked section, for a level read before the lock was taken and any state of the queues: the head of the level, or, if the lock is taken or the level empty, what can be stolen, or the idle thread iff nothing can |
| `Balance.StealBelow` | os/src/kernel/sched.c:467-478 | steals exactly what the steal pass would; keeps it iff its priority number is below the local level, else puts it at the end of its queue on this CPU and moves nothing else |
| `Balance.BestTarget` | os/src/kernel/sched.c:391-401 | the least loaded other CPU the thread's mask allows |
| `Balance.FindMovable` | os/src/kernel/sched.c:384-407 | the walk finds the first thread of the queue that may move to a CPU at least three shorter, and none only if there is none |
| `Balance.Push` | os/src/kernel/sched.c:353-455 | moves no thread iff the CPU is not three above the average, its lock is taken, or no thread of its highest queue may go to a CPU at least three shorter; otherwise the first that may goes to the end of its level there, which lowers the sum of squared queue lengths |
| `Balance.ImbalanceIsSquares` | os/src/kernel/sched.c:358-365 | the imbalance is the sum of the squared queue lengths |
| `Balance.MoveLowersImbalance` | os/src/kernel/sched.c:402-446 | moving a thread to a CPU at least three shorter lowers the sum of squares |
| `Balance.PushesStop` | os/src/kernel/sched.c:353-455 | no run of pushes without arrivals is longer than the initial sum of squares |
| `Balance.SetPriority` | os/src/kernel/sched.c:1193-1208 | a ready thread ends up last in its new queue on the current CPU; no thread leaves the queues and no other thread joins |
| `Balance.Age` | os/src/kernel/sched.c:1064-1077 | exactly the ready threads other than the idle one that waited long enough gain one priority; the threads queued afterwards are exactly those queued before and these |
| `Balance.PickedThenRaised` | os/src/kernel/sched.c:1193-1208 | a thread taken from its queue and then given a priority before it runs is on a queue again |
| `Balance.PickedThenAged` | os/src/kernel/sched.c:1064-1077 | so is one that an aging pass boosts |
| `Balance.Migrate` | os/src/kernel/sched.c:1260-1314 | every queue ends up in order behind the queue of the same priority on the other CPU; the number migrated is their total length |
| `Balance.ValidateQueue` | os/src/kernel/kernel_invariant.c:29-58 | the kernel's own walk counts as many threads as declared and never sees a cycle |
| `Retirement.StepKeepsInv` | os/src/kernel/sched.c:38-45 | every step of every CPU keeps each thread in one place and each slot for one retired thread; a running thread that is not idle is the current one of a CPU, and a blocked one is waited for |
| `Retirement.FinaliseKeepsInv` | os/src/kernel/sched.c:38-45 | finalising a slot terminates a thread that no CPU is on |
| `Retirement.PublishKeepsInv` | os/src/kernel/sched.c:792-806 | publishing a zombie and choosing its successor |
| `Retirement.SwitchKeepsInv` | os/src/kernel/sched.c:817-823 | leaving the retired stack, into the trampoline or back into schedule |
| `Retirement.ScheduleKeepsInv` | os/src/kernel/sched.c:633-698 | requeue or block, and switch, keep the invariant |
| `Retirement.NeverReapedOnStack` | os/src/kernel/sched.c:98-153 | at every point of every run no CPU is on the stack of a finalised or reaped thread |
| `Retirement.SlotNeverOverwritten` | os/src/kernel/sched.c:771-825 | in every run a published thread stays in its slot until the step that finalises it, and publishing finds the slot empty |
| `Retirement.ReapedForGood` | os/src/kernel/sched.c:98-127 | a reaped thread is never reaped again |
| `Retirement.ThreadCanBeReaped` | os/src/kernel/sched.c:771-825 | a run that takes a thread from creation through exit, publication, switch and finalisation to its reaping |
| `ThreadLife.StepEffect` | os/src/kernel/sched.c:633-698 | what each step does to the state of each thread, for every step and thread: in particular a preempted thread that is not idle becomes ready, the thread switched to runs, and a woken one is ready |
| `ThreadLife.CurrentAfter` | os/src/kernel/sched.c:684-686 | only the schedule and the exit path of a CPU change its current thread, to the one picked |
| `ThreadLife.AliveSomewhere` | os/src/kernel/sched.c:633-698 | at every point of every run a live thread is running and current on a CPU, ready and current on none, or blocked, waited for and current on none |
| `ThreadLife.NeverLost` | os/src/kernel/sched.c:633-698 | at every point of every run, some continuation makes any live thread the current one of a CPU |
| `ThreadLife.CpuNeverStuck` | os/src/kernel/sched.c:771-825 | at every point of every run each CPU has a step it can take |
| `ThreadLife.CanBeReaped` | os/src/kernel/sched.c:98-153 | at every point of every run, some continuation takes any live thread through its exit to its reaping |
| `Rcu.StepKeepsInv` | os/src/kernel/rcu.c:45-104 | a counter that has caught up, or a read about to be written back, vouches for its CPU |
| `Rcu.GracePeriod` | os/src/kernel/rcu.c:45-121 | in every run, whenever a callback runs every CPU has passed a quiescent state after the call that enqueued it |
| `Rcu.ExactlyOnce` | os/src/kernel/rcu.c:58-121 | at every point of every run each enqueued callback is in exactly one list, once |
| `Rcu.RunsAtMostOnce` | os/src/kernel/rcu.c:93-102 | no two executions in a run are of the same callback |
| `Rcu.NeverStuck` | os/src/kernel/rcu.c:45-121 | at every point of every run, every enqueued callback has been executed or some continuation executes it |
| `Rcu.ExecutionOrder` | os/src/kernel/rcu.c:63-121 | of two callbacks executed in a run, the first was enqueued later iff both belong to one grace period: a grace period runs its callbacks newest first, and those of an earlier one are older than those of a later one |
| `Rcu.CallAnyTime` | os/src/kernel/rcu.c:106-121 | at every point of every run the run can go on with a call_rcu, whose callback no list held before and which is then the first pending one |
| `PagePool.PlacesDisjoint` | os/src/kernel/pmm.c:19-47 | no page is on two lists, in two caches, or in both, and none of those is held |
| `PagePool.TakeListInv` | os/src/kernel/pmm.c:464-468 | a page leaving a list for a client keeps the partition |
| `PagePool.FlushOneInv` | os/src/kernel/pmm.c:251-263 | a page going from a cache to a list keeps the partition |
| `PagePool.RefillOneInv` | os/src/kernel/pmm.c:349-359 | a page going from a list to a cache keeps the partition |
| `PagePool.StealOneInv` | os/src/kernel/pmm.c:398-404 | a page going from one cache to another keeps the partition |
| `PagePool.RangeInv` | os/src/kernel/pmm.c:598-604 | a range of listed pages going to a client keeps the partition |
| `Pmm.Pages.OwnerSet` | os/src/kernel/pmm.c:91-103 | stops only on a page owned by two different threads |
| `Pmm.Pages.TryPop` | os/src/kernel/pmm.c:115-164 | returns the newest cached page, now owned by the thread, iff the cache is not empty; neither stop can happen |
| `Pmm.Pages.TryPush` | os/src/kernel/pmm.c:171-229 | fails only on a full cache; the stop cannot happen for a held page |
| `Pmm.Pages.FlushFrom` | os/src/kernel/pmm.c:245-267 | exactly the entries from a position on go to the front of the list of their own node, one after the other; every other page stays where it is |
| `Pmm.PushedOrder` | os/src/kernel/pmm.c:245-267 | a list after a flush: the pages flushed last first, then the old list |
| `Pmm.Pages.FlushCpu` | os/src/kernel/pmm.c:271-295 | empties one cache |
| `Pmm.Pages.Refill` | os/src/kernel/pmm.c:337-363 | moves as many pages as fit from the front of the list to the end of the cache, in order, and touches no other page |
| `Pmm.Pages.Steal` | os/src/kernel/pmm.c:372-409 | the newest pages, up to half of the victim's and as many as fit, move in order to the end of the own cache |
| `Pmm.Pages.PopNode` | os/src/kernel/pmm.c:448-470 | returns the head of the list, now owned by the thread, iff the list is not empty; none of the stops can happen |
| `Pmm.Pages.NearestNode` | os/src/kernel/pmm.c:491-497 | the nearest other node with a free page |
| `Pmm.ChosenOne` | os/src/kernel/pmm.c:488-504 | the three passes fix one list, none iff every list is empty |
| `Pmm.Pages.RefillNode` | os/src/kernel/pmm.c:305-335 | the list a refill takes from: without node information the first with a page, else the own one, the nearest, or the first |
| `Pmm.Pages.AllocPage` | os/src/kernel/pmm.c:472-532 | returns a page nobody held, now owned by the thread, and changes no other holding; it is the newest of the own cache, else the head of the own node's list, else of the nearest node's, else of the first list with a page, followed by a refill from the list chosen for it, else the newest of the first cache with two pages or more whose lock is free; fails iff the own cache and every list are empty and each attempt to steal finds the cache locked or with at most one page |
| `Pmm.Pages.Scan` | os/src/kernel/pmm.c:584-594 | finds the first run of clear bits iff there is one |
| `Pmm.DropRange` | os/src/kernel/pmm.c:538-550 | the walk drops exactly the pages of the range |
| `Pmm.Pages.AllocPages` | os/src/kernel/pmm.c:554-612 | returns the first run of pages nobody held, all owned by the thread, iff one exists, after flushing every cache |
| `Pmm.Pages.FreePage` | os/src/kernel/pmm.c:738-824 | a held page becomes free, at the end of this CPU's cache, after the newer half of a full cache has gone to the lists, and no other holding changes; no stop can happen |
| `Pmm.Pages.PushOrList` | os/src/kernel/pmm.c:766-823 | the end of the slow path for any state of the cache |
| `AllocatorRuns.RunPages` | os/src/kernel/pmm.c:472-824 | over every sequence of single and contiguous allocations, frees and flushes the allocator never stops, each request does exactly what it must, and the held pages follow the grants and returns |
| `AllocatorRuns.NoDoubleGrant` | os/src/kernel/pmm.c:472-824 | in every such run a page is granted twice only if it was returned in between |
| `SlabPool.PointerRoundTrip` | os/src/kernel/kmalloc.c:49-55 | objects fit behind the header and a pointer finds its page and slot again |
| `SlabPool.NoOverlap` | os/src/kernel/kmalloc.c:135-160 | two different objects never share a byte |
| `SlabPool.FieldsApart` | os/src/kernel/kmalloc.c:20-29 | the fields of a page header and the bytes of its bitmap do not overlap and are aligned |
| `SlabPool.HeaderApart` | os/src/kernel/kmalloc.c:20-29 | no object, of any page and class, shares a byte with the header or bitmap of any page |
| `SlabPool.TotalIsMost` | os/src/kernel/kmalloc.c:144-146 | a page has exactly as many objects as fit behind the header and have a bit in the bitmap |
| `SlabPool.SetHeapInv` | os/src/kernel/kmalloc.c:199-206 | taking or putting back one object keeps bitmap, free count and byte counters right |
| `SlabPool.NewPageInv` | os/src/kernel/kmalloc.c:135-160 | a fresh page adds free objects only |
| `SlabPool.DropPageInv` | os/src/kernel/kmalloc.c:307-313 | a page whose free count equals its total has only free objects, and dropping it keeps everything right |
| `Slab.LiveObjectsDisjoint` | os/src/kernel/kmalloc.c:162-220 | any two objects in clients' hands occupy different bytes |
| `Slab.SlabIndex` | os/src/kernel/kmalloc.c:115-121 | the smallest class that fits, or none exactly above 1024 bytes |
| `Slab.Kmalloc.Flush` | os/src/kernel/kmalloc.c:43-88 | magazine entries from a position on return to their pages; no held object is touched |
| `Slab.Kmalloc.FlushCpu` | os/src/kernel/kmalloc.c:92-101 | empties the magazines of one CPU |
| `Slab.Kmalloc.FindFree` | os/src/kernel/kmalloc.c:195-210 | finds the first free object of the class, in the order of the pages and slots, iff there is one |
| `Slab.FirstFreeOne` | os/src/kernel/kmalloc.c:195-210 | there is one such object |
| `Slab.Kmalloc.Alloc` | os/src/kernel/kmalloc.c:162-220 | grants one object nobody held, of the smallest class that fits: the newest of the CPU's magazine, else the first free one, else the first of the new page; fails iff there is no new page, the CPU's magazine of the class is empty and no page of the class has a free object |
| `Slab.Kmalloc.Release` | os/src/kernel/kmalloc.c:222-274 | exactly that object leaves clients' hands; its address is then the newest entry of the CPU's magazine, of which the older half was kept if it was full |
| `Slab.Kmalloc.Compact` | os/src/kernel/kmalloc.c:293-322 | afterwards a page is a slab page iff it holds an object in a client's hands, and none of those has been touched |
| `KernelHeap.ItemsApart` | os/src/kernel/kmalloc.c:162-220 | any two different items in clients' hands, small objects or large blocks, occupy different bytes |
| `KernelHeap.Memory.Malloc` | os/src/kernel/kmalloc.c:162-220 | for every size: grants one item nobody held that is at least as long as asked; fails iff the size is 0 or there is no room, that is no long enough run of free pages, or for a small request nothing in the magazine, no free object of the class and no free page |
| `KernelHeap.Memory.Free` | os/src/kernel/kmalloc.c:222-274 | exactly that item leaves clients' hands, except that a block of more than 2 to the 20 pages never does |
| `KernelHeap.Memory.FreeLarge` | os/src/kernel/kmalloc.c:229-240 | exactly the block's pages go back to the page allocator |
| `KernelHeap.Memory.Compact` | os/src/kernel/kmalloc.c:293-322 | exactly the slab pages without an object in a client's hands go back to the page allocator, and no item changes hands |
| `KernelHeap.AddressStays` | os/src/kernel/kmalloc.c:162-322 | an item that stays in a client's hands keeps its address |
| `HeapRuns.RunHeap` | os/src/kernel/kmalloc.c:162-322 | over every sequence of kmalloc, kfree, magazine flushes and compactions, on top of the page allocator, both allocators stay sound, each call does exactly what it must, the items in clients' hands follow the grants and returns, and none is granted twice unless it was given back in between |
| `HeapRuns.NoItemTwice` | os/src/kernel/kmalloc.c:162-322 | in every such run an item is granted twice only if it was given back in between |
| `Sha256.RotrBit` | os/src/kernel/sha256.c:3-11 | rotation moves bit j + n modulo 32 to bit j |
| `Sha256.ShrBit` | os/src/kernel/sha256.c:10-11 | a shift moves bit j + n to bit j |
| `Sha256.ChBit` | os/src/kernel/sha256.c:6-6 | Ch takes each bit from its second argument where the first has a one and from its third elsewhere |
| `Sha256.MajBit` | os/src/kernel/sha256.c:7-7 | Maj has the bit that at least two of its arguments have |
| `Sha256.SigmaBits` | os/src/kernel/sha256.c:8-11 | the four sigma functions bit by bit |
| `Sha256.ZerosIsLeast` | os/src/kernel/sha256.c:83-93 | the padding is the least that reaches byte 56 of a block |
| `ShaFips.PadIs` | os/src/kernel/sha256.c:83-103 | section 5.1.1: the padded message is the message, a byte 0x80, the least zeros, and eight bytes that as a big-endian number are the bit length modulo 2 to the 64 |
| `ShaFips.WordIsBytes` | os/src/kernel/sha256.c:35-36 | a message word is its four bytes as a big-endian number |
| `ShaFips.DigestWord` | os/src/kernel/sha256.c:105-114 | four bytes of the digest as a big-endian number are the hash word |
| `ShaFips.ScheduleIs` | os/src/kernel/sha256.c:34-38 | the schedule satisfies the recurrence of section 6.2.2 as congruences modulo 2 to the 32 |
| `ShaFips.ScheduleIsOne` | os/src/kernel/sha256.c:34-38 | only one schedule does |
| `ShaFips.RoundIs` | os/src/kernel/sha256.c:45-50 | a round satisfies step 3 of section 6.2.2 as congruences |
| `ShaFips.RoundInjective` | os/src/kernel/sha256.c:45-50 | a round can be undone: for a given constant and word the variables before follow from those after |
| `ShaFips.CompressIs` | os/src/kernel/sha256.c:32-56 | a value satisfies the equations of section 6.2.2 for a block iff it is the compression |
| `ShaFips.HashIs` | os/src/kernel/sha256.c:58-115 | a byte string is the big-endian bytes of the last value of a chain of such compressions over the padded message iff it is the hash |
| `ShaConstants.SieveIsPrime` | os/src/kernel/sha256.c:13-30 | below 361 the sieve by the primes up to 17 leaves exactly the primes |
| `ShaConstants.FirstPrimes` | os/src/kernel/sha256.c:13-30 | the primes up to 19, each the next after the one before |
| `ShaConstants.Primes1` | os/src/kernel/sha256.c:13-30 | the next eight primes, each the next after the one before; from 23 to 53 |
| `ShaConstants.Primes2` | os/src/kernel/sha256.c:13-30 | the next eight primes, each the next after the one before; from 59 to 89 |
| `ShaConstants.Primes3` | os/src/kernel/sha256.c:13-30 | the next eight primes, each the next after the one before; from 97 to 131 |
| `ShaConstants.Primes4` | os/src/kernel/sha256.c:13-30 | the next eight primes, each the next after the one before; from 137 to 173 |
| `ShaConstants.Primes5` | os/src/kernel/sha256.c:13-30 | the next eight primes, each the next after the one before; from 179 to 223 |
| `ShaConstants.Primes6` | os/src/kernel/sha256.c:13-30 | the next eight primes, each the next after the one before; from 227 to 263 |
| `ShaConstants.Primes7` | os/src/kernel/sha256.c:13-30 | the next eight primes, each the next after the one before; from 269 to 311 |
| `ShaConstants.Roots0` | os/src/kernel/sha256.c:13-30 | constants 0 to 15 are the first 32 bits of the fractional parts of the cube roots of those primes |
| `ShaConstants.Roots1` | os/src/kernel/sha256.c:13-30 | constants 16 to 31 are the first 32 bits of the fractional parts of the cube roots of those primes |
| `ShaConstants.Roots2` | os/src/kernel/sha256.c:13-30 | constants 32 to 47 are the first 32 bits of the fractional parts of the cube roots of those primes |
| `ShaConstants.Roots3` | os/src/kernel/sha256.c:13-30 | constants 48 to 63 are the first 32 bits of the fractional parts of the cube roots of those primes |
| `ShaConstants.InitialValue` | os/src/kernel/sha256.c:58-69 | the initial hash value is the first 32 bits of the fractional parts of the square roots of the first eight primes |
| `ShaStream.Transform` | os/src/kernel/sha256.c:32-56 | the in-place schedule and the rotating variables compute the compression function |
| `ShaStream.Context.Update` | os/src/kernel/sha256.c:71-81 | appends to the message fed so far, with whole blocks folded in |
| `ShaStream.Context.PadBuffer` | os/src/kernel/sha256.c:84-93 | the one-block and the two-block case of the padding |
| `ShaStream.Context.Final` | os/src/kernel/sha256.c:83-115 | the digest is the hash of the message fed so far, with the length modulo 2 to the 64 |
| `ShaStream.HashParts` | os/src/kernel/sha256.c:58-115 | every split of a message into updates gives the hash of the whole |
| `ShaStream.HashOnce` | os/src/kernel/sha256.c:117-122 | the one-shot call |
| `Pipe.Ring.ReadChunk` | os/src/kernel/pipe.c:51-61 | the oldest bytes leave the ring in order, as many as wanted and present |
| `Pipe.Ring.WriteChunk` | os/src/kernel/pipe.c:77-89 | as many bytes enter as fit, none once the read end is closed; the write position stays the read position plus the count modulo 4096 |
| `Pipe.RunAll` | os/src/kernel/pipe.c:45-95 | over every interleaving of sections, each read gets exactly what is wanted and held and each write gives exactly what fits, nothing once the read end is closed; at every point the bytes got out are a prefix of those put in, at most 4096 short of it |

## Left out

- Device errors below the journal and the filesystem: reads and writes succeed there; only the cache models refused writes.
- WriteThrough.EarlyWritesStay: which blocks the cache writes back before a commit, and when, is a parameter; the cache itself is not part of that model.
- Metadata writes outside a begin and end pair (access times, modes, locks).
- JournalOps.Recover: stated for rings on which no scan misreads a payload (the exact condition is JournalScan.NoAliasIff) and whose targets lie outside the journal; of a misreading scan only the first wrong write is stated, not what follows it or whether the scan ends.
- JournalOps.ReplayTxn: the same rings.
- JournalOps.ReplayRing: the same rings.
- Packing of inodes into table blocks, times, link counts, directories, and the block_owner diagnostics.
- The bitmap is a flat sequence of bytes beside the block store, not blocks inside it.
- SfsAlloc.GetBlock: blocks past the data area are plain storage in the model, one for every bit of the bitmap; on a disk some of them hold the journal.
- SfsFile.Write: offsets whose end passes 2 to the 41, where the code truncates the block number; SfsFile.WriteFar has those from 2 to the 32 on.
- Fsck.CheckVolume: the superblock pass, the directory pass and read errors.
- BlockCache.Cache.ReadBlock: the device read of a miss happens after the lock is released; the model takes the miss as one step.
- Retirement.ScheduleKeepsInv: requeue (or block) and switch are one step, and finalising a slot is one step, so an interrupt inside either is not modelled.
- ThreadLife.NeverLost: that a continuation exists; fairness of the scheduler, which would make every continuation do so, is not modelled.
- Rcu.GracePeriod: the CPU number and the counter of one rcu_quiescent_state call are read in one step, the counter is unbounded, and a callback is enqueued again only after it has run.
- rcu_barrier, whose flags clear before the callbacks run.
- Balance.Pick: the sections are composed without interference; each section is stated for arbitrary states.
- Pmm.Pages.FreePage: only clients that free what they hold; the warnings for double frees are not modelled.
- pmm_alloc_node_pages with several nodes, whose result is the address of the page times the page size when a node list supplies it; boot-time initialisation of the page lists; zeroing of pages.
- Slab.Kmalloc.Alloc: requests above 1024 bytes are in KernelHeap.Memory.Malloc.
- KernelHeap.Memory.Malloc: new slab pages come from pmm_alloc_pages, as on a machine without node information; the byte counters of large blocks are not kept.
- KernelHeap.Memory.Free: the magic word that tells slab pages from large blocks is taken to be right; a large block whose client stores that number in its first word is not modelled.
- Slab.Kmalloc.Release: the bitmap path for an impossible size class, and addresses below the kernel's.
- Blocking and waking of pipe readers and writers, and polling.
- Unsigned wrap-around of counters other than the 32-bit sequence number of the journal and the 64-bit length of the hash.
- Weak memory ordering, inter-processor interrupts, drivers, networking, processes, the shell and boot code.
