# A model of the NOS kernel and its user libc

NOS is a small i386 kernel with a user libc. This project models the parts of it
that keep state over long runs and proves what they keep: the ext2 driver, the
TCP client, the user allocator, tasks with their pipes and descriptors, window
surfaces over page tables, and three text algorithms. Code that changes things
step by step is modelled as classes and methods with loops; each method is
proved against a specification, and the specification's own laws are proved as
lemmas. `dafny verify dfyconfig.toml` checks everything.

## How the model is laid out

**ext2** (`Ext2*.dfy`). `Ext2Disk` holds the volume as a value and the central
invariant `Inv`: every pointer of every live inode, direct, indirect or in an
indirect table, names a marked data block that no other pointer names, and every
directory is a chain of records naming live inodes. `Ext2Alloc.Mount` is the
mounted volume over a device whose reads and writes fail by an arbitrary
schedule. Its only way to change the device, `DevWrite`, demands `Inv` of the
result, so the volume is safe after every single write, not just after every
call (`history`). `live` is a superset of the inodes reachable from the root;
`Ext2Disk.ReachableNeverAlias` turns `Inv` into a statement about paths from the
root. `Ext2Run` reads the volume as a tree of byte sequences and entry lists and
shows that a fault-free run of any operations, out-of-space included, is a run
of that tree, reply for reply, with the accounts never drifting. Which requests
are carried out, and how far a write gets (`Ext2Space`), follows from the volume
before them. Under faults every operation still has the effect it reports.
`Ext2Atomic` says when create and mkdir are all or nothing if one access fails,
and `Ext2Faults` shows what is not promised. `Ext2Geometry` is the mount-time validation in 32-bit
arithmetic. `Ext2Bytes` decodes a volume from the bytes of its device and shows
that every kind of block write the driver makes is exactly one change of the
decoded volume.

**User allocator** (`HeapArena`, `Heap`, `HeapRun`). Addresses count 8-byte
units. The arena's blocks tile the heap, the free list is one ascending cycle
through its static head, no two free blocks touch. `HeapRun.Run` takes any
sequence of calls and stores and shows that every block behaves like an array of
its own, also when `realloc` moves it.

**TCP** (`RingQueue`, `Tcp`). One connection against a truthful peer over a
network that loses, repeats and reorders. 32-bit sequence numbers are real in
the model; absolute offsets stand beside them. `Tcp.Run` takes any sequence of
arrivals, reads, concurrent sends and closes and shows that the socket refines a
connection on unbounded offsets (`Happens`).

**Tasks, pipes, descriptors** (`Pipes`, `Descriptors`, `RoundRobin`, `Tasks`).
Every section the kernel runs with interrupts masked is one method.
`Tasks.Run` takes any sequence of ticks, exits, kills, exec2, pipe, connect and
close calls, network events and reaper steps. The scheduler keeps a ghost trace
of its decisions; `RoundRobin` proves fairness of such traces.

**Surfaces and frames** (`Surfaces`). Slots, page directories and the frame
bitmap in one state; in the window area a directory holds exactly the aliases
its slots call for.

**Text** (`Grep`, `Numbers`, `Printf`, `Checksum`). The matcher against the
language of its pattern, printing against parsing, one formatter over two sinks,
and the Internet checksum.

`Machine` (bytes and 32-bit words) and `Sequences` (ascending lists) are shared.

## What is assumed

- Each ext2 entry point holds the mount lock, so calls run one at a time. A
  failed device write leaves the block as it was. `kmalloc` does not fail (it
  panics). The starting volume satisfies `Inv`: in particular a directory is a
  gap-free prefix of direct blocks with `i_size` equal to their total.
- Where the ext2 driver re-checks a pointer that `Inv` already bounds, the check
  always passes (`Ext2Files.LivePointersOk`) and most are not written out again.
- sbrk is called by the allocator alone, and the list head lies below the heap
  (programs are linked at 0x40000000, the heap starts at 0x60000000).
- TCP segments and acknowledgements alive in the network, and bytes in flight,
  lie within 2^31 of the current point. A peer acknowledges only bytes it holds
  contiguously.
- The sections of `sys_pipe`, `sys_exec2`, `sys_connect` and of each
  `wsurf_*` and `alloc_frame` call are taken as one step, although
  `kernel/paging.c:61-76` and `kernel/wsurf.c:149-163` do not mask interrupts.
- A program's pages lie outside the surface windows; a killed task never runs
  again; the reaper runs on a live task.
- Strings given to grep, strtol and printf hold no NUL.

## Findings

- A failing read during lookup reads as "name absent", so create and mkdir can
  add a second entry of that name. `Ext2Dirs.DirLookup` says exactly when a name
  is missed, `Ext2Create.Create` and `Ext2Mkdir.Mkdir` that names stay distinct
  exactly if the added one was absent, and `Ext2Faults.AddTwice` shows it happen
  on every volume with room. Every other guarantee of create and mkdir holds
  under any faults.
- If at most one device access fails, wherever it is, create and mkdir are all or
  nothing on every volume with room (`Ext2Atomic.CreateAtomic`,
  `Ext2Atomic.MkdirAtomic`). Without room they can be refused, which is exactly
  when every access up to finding that out goes well, and the roll-back that
  follows restores everything unless an access fails in it. This is exact:
  `Ext2Create.Create` is rolled back if and only if no access failed after the
  lookup. In mkdir one
  failure does no harm, that of writing the directory count back, because the
  freeing of the block writes it again; which read and which write these are
  follows from the volume (`Ext2Mkdir.Spare`), and with them made good the same
  condition is exact. `Ext2Faults.LoseInode` shows a lost inode on every volume
  where the name has no place, `Ext2Faults.LoseLink` a link count left one too
  high. The volume is then still safe and the tree unchanged.
- A write behind the direct blocks of a file without a pointer table, on a volume
  with one block left, takes that block for the table, finds none for the data,
  reports 0 and does not give it back, no access failing
  (`Ext2Faults.LoseTable`). A write that reports 0 without a fault loses a block
  in exactly this case (`Ext2Faults.WriteNothing`).
- Surface slots are packed without rounding to pages, so a slot 0 of more than
  468 pages shares one frame with slot 1 (`Surfaces.SlotsShare` says exactly when,
  `Surfaces.TwoFullSurfaces` shows it).

## Model

| member | source | states |
|---|---|---|
| Ext2Disk.ReachableNeverAlias | kernel/ext2.c:290-384 | on a safe volume two pointers of inodes reachable from the root name the same block only if they are the same pointer, and the block is a data block whose bitmap bit is set |
| Ext2Disk.ReachableIsLive | kernel/ext2.c:647-684 | every inode reached by a path of directory entries from the root is one the invariant speaks about |
| Ext2Disk.InvLink | kernel/ext2.c:563-600 | linking a marked, unpointed block into an empty slot of a file keeps the volume safe |
| Ext2Disk.InvDirGrow | kernel/ext2.c:700-727 | giving a directory one more filled block keeps the volume safe |
| Ext2Disk.InvOutside | kernel/ext2.c:290-384 | changes confined to what no live inode points at keep the volume safe |
| Ext2Alloc.ClearUpdate | kernel/ext2.c:302-342 | setting or clearing one bit moves the number of clear bits by exactly one, or not at all if the bit had that value |
| Ext2Alloc.Mount.constructor | kernel/ext2.c:1395-1410 | a fresh mount mirrors the counts on the device and is valid; what a mount check demands of the count of directories is all it asks beyond a safe volume |
| Ext2Alloc.Mount.DevWrite | kernel/ext2.c:211-216 | a write is only allowed if the volume would be safe afterwards; a failed one changes nothing; the record of what the device held after every write grows by exactly the writes that landed |
| Ext2Alloc.WriteSuper | kernel/ext2.c:220-229 | the superblock counts land on the device or the device is unchanged |
| Ext2Alloc.WriteGroup | kernel/ext2.c:231-240 | the group counts land on the device or the device is unchanged |
| Ext2Alloc.AllocBlock | kernel/ext2.c:290-352 | returns the lowest free data block, marked, zeroed, counted once in both counts and pointed at by nobody; on failure the counts are as before, after one fault the disk is as before in use; it is refused exactly if there is no block to be had and the bitmap, if read, is read, and succeeds exactly if there is one and its three reads and four writes go well; clear bits less free count never changes without a fault |
| Ext2Alloc.FreeBlock | kernel/ext2.c:360-384 | clears at most the one bit, ignores what is not a data block, counts up once; memory and device counts agree again after at most one fault; under any faults the clear bits less the free count never fall, and after a fault the counts in memory are as before |
| Ext2Alloc.AllocInode | kernel/ext2.c:387-425 | returns the lowest free ordinary inode, marked and counted; otherwise undone as far as one fault allows; it is refused exactly if there is no inode to be had and the bitmap, if read, is read, and succeeds exactly if there is one and its three reads and three writes go well |
| Ext2Alloc.FreeInode | kernel/ext2.c:428-450 | clears at most the one bit of an inode nobody reaches and counts up once; under any faults the clear bits less the free count never fall, and after a fault the counts in memory are as before |
| Ext2Blocks.TableOfChildren | kernel/ext2.c:592-597 | an indirect block decoded to pointers and encoded again is the same block |
| Ext2Blocks.ChildrenOfTable | kernel/ext2.c:592-597 | pointers encoded into an indirect block read back as the same pointers |
| Ext2Dirents.HeaderReadsBack | kernel/ext2.c:712-715 | a record written at an offset reads back with its inode, length and name |
| Ext2Dirents.SplitEntries | kernel/ext2.c:744-762 | splitting the last record of a chain keeps it a chain to the same limit and appends exactly one entry |
| Ext2Dirents.OneRecordEntries | kernel/ext2.c:710-715 | a fresh directory block with one spanning record is a chain holding exactly that entry |
| Ext2Files.ReadInode | kernel/ext2.c:244-262 | a successful read returns the inode on the device; a failure in range is a device fault |
| Ext2Files.WriteInode | kernel/ext2.c:264-282 | replaces one inode or changes nothing |
| Ext2Files.LoadTable | kernel/ext2.c:572-591 | the indirect table is loaded or freshly allocated once, without losing entries placed earlier in the same write or changing any other slot; without a fault it fails exactly if the file has no table and the volume no block |
| Ext2Files.MapBlock | kernel/ext2.c:562-603 | the block for a file offset, allocated and linked in memory if absent; nothing on the device that the file reaches changes, and no slot but its own and the table; without a fault it succeeds exactly if the volume has as many blocks as are missing, none if the block is linked |
| Ext2Files.WriteChunk | kernel/ext2.c:605-610 | one chunk is added to what the pending inode and table show, or nothing is; without a fault it succeeds exactly if the volume has as many blocks as are missing for it |
| Ext2Files.WriteLoop | kernel/ext2.c:555-611 | the bytes placed are a prefix of the request; without a fault they are exactly as many as the blocks to be had allow, linked blocks costing nothing, and the blocks taken are those they needed |
| Ext2Write.StoreTable | kernel/ext2.c:614-626 | after the table is stored every placed byte is reachable; if it cannot be stored each byte is an old or a requested one |
| Ext2Write.StoreInode | kernel/ext2.c:632-640 | storing the inode makes the device show old contents overlaid with the placed bytes |
| Ext2Write.WriteData | kernel/ext2.c:533-641 | progress reported is progress made under any faults: old bytes overlaid with the first n, size the larger of old and offset + n, all other nodes untouched; 0 without a fault changes no byte; a request past the largest file writes nothing, and of any other, without a fault, exactly as many bytes are written as the blocks to be had allow; sector count stays twice the linked blocks |
| Ext2FileOps.WriteFile | kernel/ext2.c:927-944 | the same through the file node, how far it gets included, with books and agreement of counts kept when no fault occurs |
| Ext2Space.AvailNone | kernel/ext2.c:290-325 | no block can be taken exactly if the next request is refused |
| Ext2Space.AvailTaken | kernel/ext2.c:302-342 | taking a block leaves exactly one fewer to be had, by marks and by both counts |
| Ext2Space.FitsMostOnce | kernel/ext2.c:555-611 | how many bytes a write gets is one number, fixed by the volume and the request |
| Ext2Space.StuckNeeds | kernel/ext2.c:562-603 | not a byte fits exactly if fewer blocks are to be had than the first block of the request needs: one, or two if it needs the table too |
| Ext2FileOps.WrittenContents | kernel/ext2.c:533-641 | on a file that reads zero past its end, an overlay is exactly pasting into the byte sequence, zeros in any gap, and the file still reads zero past its end |
| Ext2FileOps.ReadData | kernel/ext2.c:470-529 | the bytes returned are the file's bytes at that offset, through direct and indirect blocks and holes; short only at the end of the file or on a fault |
| Ext2FileOps.ReadFile | kernel/ext2.c:908-925 | without a fault a read returns exactly the slice of the contents asked for; with one, a prefix of it |
| Ext2FileOps.Truncate | kernel/ext2.c:952-1034 | the file becomes empty and exactly its blocks become free; on failure nothing changed; all other nodes are untouched |
| Ext2FileOps.FreedExactly | kernel/ext2.c:1016-1029 | freeing the listed pointers clears the bits of the blocks the file held and no others |
| Ext2Dirs.ScanBlock | kernel/ext2.c:669-680 | the record walk finds the first entry of that name among the entries of the block |
| Ext2Dirs.DirLookup | kernel/ext2.c:647-684 | under any faults: the first entry of that name, unless a block cannot be read before the name has come up, and then 0; when it returns 0 the reads it made are those up to the first that fails |
| Ext2Dirs.ScanIndex | kernel/ext2.c:849-869 | the walk finds the entry of the given number among those of the block, or counts them all |
| Ext2Dirs.ReadDir | kernel/ext2.c:815-874 | entry number index of the same list, its name cut at 127 bytes; none exactly when index is past the end |
| Ext2DirAdd.InsertedFind | kernel/ext2.c:688-769 | putting an entry in anywhere adds one binding to the map from names to inodes; every other name is found as before |
| Ext2DirAdd.InsertedDistinct | kernel/ext2.c:688-769 | inserting an absent name keeps the names distinct |
| Ext2DirAdd.InsertedDistinctIff | kernel/ext2.c:1051-1054 | names stay distinct exactly if they were and the added one was absent |
| Ext2DirAdd.ListedIsFound | kernel/ext2.c:815-874 | with distinct names, every entry readdir lists is what lookup of its name returns |
| Ext2DirAdd.FoundIsListed | kernel/ext2.c:647-684 | whatever lookup returns is an entry readdir lists |
| Ext2DirAdd.ScanRoom | kernel/ext2.c:739-765 | finds the last record of the block, exactly if it can be split for the new name |
| Ext2DirAdd.SeekRoom | kernel/ext2.c:698-743 | the blocks are tried in order; it reports none exactly if no block of the directory has room |
| Ext2DirAdd.AppendEntry | kernel/ext2.c:744-762 | the split block adds exactly one entry to the directory and touches no other node |
| Ext2DirAdd.AddBlock | kernel/ext2.c:700-727 | a fresh block adds exactly one entry; undone completely after one fault or refusal |
| Ext2DirAdd.DirAdd | kernel/ext2.c:688-769 | success adds exactly one entry and keeps sector counts exact; failure leaves every live node as it was, and after one bad event everything in use; without a fault it fails exactly if the name is too long or has no place; it is refused exactly if there is no place and every read up to finding that out goes well, and has then touched nothing |
| Ext2Create.GainedNames | kernel/ext2.c:1051-1082 | a directory that gained an entry gained one binding, and its names are distinct exactly if they were and the added one was absent |
| Ext2Create.InitAndAdd | kernel/ext2.c:1061-1078 | the new inode is initialised and named, or nothing live changed; refused exactly if the name has no place and every access up to finding that out goes well |
| Ext2Create.GiveBack | kernel/ext2.c:1065-1078 | giving the inode back restores everything in use exactly if no access fails in it |
| Ext2Create.CreateAbsent | kernel/ext2.c:1057-1082 | the whole of creating a file once its name is taken as absent: refused exactly if there is no inode or no place and every access up to finding that out goes well; after one bad event everything in use is as before |
| Ext2Create.Create | kernel/ext2.c:1036-1082 | success: one new empty file, one new binding, everything else untouched; a name already there is added only if the lookup was cut short by a failed read; if nothing fails after the lookup it succeeds exactly if the lookup finds nothing and there are an inode and a place; refused exactly if the lookup finds nothing, there is no room, and every access up to finding that out goes well; failure: no live node changed, and everything in use equals the start unless an access failed after the first failing step; refused, it is rolled back exactly if no access failed after the lookup |
| Ext2Mkdir.DotsEntries | kernel/ext2.c:1176-1191 | the initial block of a directory is a chain holding exactly the two dot entries |
| Ext2Mkdir.NewDirInode | kernel/ext2.c:1151-1256 | the whole of making a directory once its name is known absent: one fresh directory gained, or every step undone in reverse order; without a fault it succeeds exactly if there are an inode, a block and, these taken, a place; refused exactly if one of them is missing and every access up to finding that out goes well; after one bad event everything in use is as before; refused, it is rolled back exactly if no access failed but the spare one, fixed by the volume and the schedule |
| Ext2Mkdir.ReturnInode | kernel/ext2.c:1247-1256 | giving the inode back after a refusal restores everything exactly if no access fails in it; a parent record left off stays off |
| Ext2Mkdir.NewDirBlock | kernel/ext2.c:1158-1256 | the same from the allocation of its block on, given a marked inode nobody reaches |
| Ext2Mkdir.FillNewDir | kernel/ext2.c:1167-1256 | the child block and inode are stored before anything names them; without a fault it succeeds exactly if the name has a place; refused exactly if it has none and every access up to finding that out goes well; then all but the child is as before, or the parent is off by a link exactly if an access other than the write-back of the directory count failed |
| Ext2Mkdir.ReturnBlock | kernel/ext2.c:1238-1241 | giving the block back after a refusal restores everything exactly if no access fails in it |
| Ext2Mkdir.LinkIntoParent | kernel/ext2.c:1219-1256 | the parent's link count is raised before the entry is added and restored if anything later fails; without a fault it succeeds exactly if the name has a place; refused exactly if it has none and every access up to finding that out goes well; then the count is left one too high exactly if an access other than the write-back of the directory count failed |
| Ext2Mkdir.TakeLinkBack | kernel/ext2.c:1250-1251 | the parent's record is restored exactly if its read and its write go well, and otherwise counts a link too many |
| Ext2Mkdir.CountAndAdd | kernel/ext2.c:1231-1256 | the count of directories is raised and the entry added, or both are taken back; without a fault it succeeds exactly if the name has a place; refused exactly if it has none and every access up to finding that out goes well; then the count on the device is off exactly if the read or the write fails that should take it back, each given by its number |
| Ext2Mkdir.Mkdir | kernel/ext2.c:1099-1263 | success: one new directory with its dot entries, one new binding, under an acceptable name, already there only if the lookup was cut short; parent links and directory count up by one without overflow; if nothing fails after the lookup it succeeds exactly if the parent is a directory, the name is acceptable and not found, neither count is at its limit, and there are an inode, a block and, these taken, a place; refused exactly if all that holds but room, and every access up to finding that out goes well; failure: at most the parent's link count can be off, and nothing in use is unless an access failed after the first failing step; refused, it is rolled back exactly if after the lookup no access failed but the spare one: the write-back of the directory count, whose read and write number follow from the volume and the schedule |
| Ext2Atomic.CreateAtomic | kernel/ext2.c:1036-1082 | with at most one failing access anywhere, a create on a volume with room is done, or everything in use and all counts are as before; on any volume a failed one has restored everything exactly if it was not refused or no access failed after the lookup |
| Ext2Atomic.MkdirAtomic | kernel/ext2.c:1099-1263 | the same for mkdir, where after a refusal the spare failure is allowed too |
| Ext2Run.DoWrite | kernel/ext2.c:927-944 | on the tree: the file's item becomes the pasted bytes, every other item stays, health is kept, whenever progress was reported or no fault occurred; without a fault a request past the largest file writes nothing and of any other exactly as many bytes are written as the blocks to be had allow; under any faults what is reported written is there, and if nothing is, each byte is the old one or the one asked for |
| Ext2Run.WriteTree | kernel/ext2.c:613-641 | what a write does to the tree whatever the device did: only its file changes, by what was reported, or without a report by bytes that were to be written |
| Ext2Run.DoTruncate | kernel/ext2.c:952-1034 | on the tree: the file's item becomes empty or the tree is unchanged, under any faults |
| Ext2Run.DoCreate | kernel/ext2.c:1036-1082 | on the tree: one entry and one empty file appear or the tree is unchanged, under any faults; names stay distinct exactly if the added one was not there; without a fault it succeeds exactly if the name was free and there were an inode and a place |
| Ext2Run.DoMkdir | kernel/ext2.c:1099-1263 | on the tree: one entry and one directory with its dot entries appear or the tree is unchanged, under any faults; names stay distinct exactly if the added one was not there; without a fault it succeeds exactly if the name was acceptable and free, neither count at its limit, and there were an inode, a block and a place |
| Ext2Run.GetNode | kernel/ext2.c:774-811 | the one cached node of an inode, of the kind the inode has on the device |
| Ext2Run.FindDir | kernel/ext2.c:876-906 | hands out the node of the entry the list holds under that name; without a fault it succeeds exactly if the name is there and stands for a file or a directory |
| Ext2Run.Perform | kernel/ext2.c:774-1263 | one operation (read, write, truncate, create, mkdir, lookup, listing) on nodes handed out before keeps the volume valid and the cache truthful; under any faults it has the effect it reports; without a fault its reply and what it does to tree and nodes follow exactly from the volume before it, how far a write gets included, and books, agreement of counts and health are kept |
| Ext2Run.Run | kernel/ext2.c:774-1263 | any sequence of operations under any fault schedule: the volume is safe after every device write that landed, all of them recorded in order, and each operation has the effect it reports; each operation without a fault of its own, on a healthy volume, replies and changes the plain tree exactly as the volume before it calls for and leaves it healthy; fault-free throughout, clear bits less free counts stay constant, both counts equal and fitting their fields, sector counts exact, names distinct |
| Ext2Run.BooksFit | kernel/ext2.c:1318-1342 | free counts no larger than the number of clear bits fit 16 bits, and so does the count of directories |
| Ext2Run.FreshVolume | kernel/ext2.c:1421-1437 | a volume as just made is safe and healthy, its tree one directory with its dot entries |
| Ext2Faults.AddTwice | kernel/ext2.c:657-661 | on every volume with room: if just the read of the directory's first block in the lookup fails, create adds any name already there a second time |
| Ext2Faults.LoseInode | kernel/ext2.c:1072-1078 | on every volume with a free inode and no place for the name: if just the write fails that should clear the inode's mark again, the mark stays |
| Ext2Faults.LoseLink | kernel/ext2.c:1247-1256 | on every volume with a free inode and a free block but no place for the name once they are taken: if just the write fails that should take the parent's link back, the parent keeps counting a directory that was not made |
| Ext2Faults.OnSmallVolume | kernel/ext2.c:1036-1082 | the second name and the lost inode happen on one volume written out in full |
| Ext2Faults.OnTightVolume | kernel/ext2.c:1099-1263 | and the lost link on another |
| Ext2Faults.WriteNothing | kernel/ext2.c:573-591 | without a fault a write reports 0 exactly if the blocks to be had do not do for its first block; it has then lost a block exactly if one was left and the pointer table got it |
| Ext2Faults.LoseTable | kernel/ext2.c:573-591 | that loss on every volume with one block left, for every file without a table, no access failing |
| Ext2Faults.OnLastBlock | kernel/ext2.c:573-591 | and on a volume written out in full |
| Ext2Geometry.Accept | kernel/ext2.c:1267-1394 | in 32-bit arithmetic accepts exactly the volumes whose layout is legal over unbounded integers; then the five metadata spans are pairwise disjoint, below the first data block, within the volume |
| Ext2Geometry.AccessInRange | kernel/ext2.c:204-282 | every block or inode slot used later lies in one block of the volume and passes the device range check of kernel/block.c with a sector number that did not wrap |
| Ext2Geometry.PartsApart | kernel/ext2.c:244-282 | two different parts of the volume, inode slots included, share no byte |
| Ext2Geometry.BitInBitmap | kernel/ext2.c:301-309 | every bitmap byte touched lies in the one bitmap block |
| Ext2Bytes.WithBitIs | kernel/ext2.c:309 | setting or clearing a bit of a byte is adding or taking away that power of two |
| Ext2Bytes.InodeReadsBack | kernel/ext2.c:264-282 | an inode stored in its 128 bytes reads back field by field |
| Ext2Bytes.WriteSuperBytes | kernel/ext2.c:220-229 | on the bytes of the device, writing the superblock counts back is exactly the change of those counts in the decoded volume |
| Ext2Bytes.WriteGroupBytes | kernel/ext2.c:231-240 | the same for the group counts |
| Ext2Bytes.WriteBlockBit | kernel/ext2.c:309-314 | the same for one bit of the block bitmap |
| Ext2Bytes.WriteInodeBit | kernel/ext2.c:399-403 | the same for one bit of the inode bitmap |
| Ext2Bytes.WriteInodeBytes | kernel/ext2.c:264-282 | the same for one inode: no neighbour in the block changes |
| Ext2Bytes.WriteDataBytes | kernel/ext2.c:211-216 | the same for a data block |
| HeapArena.Covered | user/libc/stdlib.c:35-105 | every address of the heap lies in exactly one block |
| HeapArena.FollowRing | user/libc/stdlib.c:27-33 | following the links from the static head visits the free blocks in address order and comes back to it |
| HeapArena.FreeApart | user/libc/stdlib.c:92-103 | two free blocks never touch |
| HeapArena.InsertGaps | user/libc/stdlib.c:92-103 | linking a block in can make it touch only its two neighbours |
| HeapArena.MergeGaps | user/libc/stdlib.c:92-103 | joining two touching list neighbours leaves no other pair touching |
| HeapArena.SplitTiled | user/libc/stdlib.c:62-66 | cutting a block in two keeps the blocks an exact tiling |
| Heap.ListInit | user/libc/stdlib.c:27-33 | first use sets up the empty cycle and touches nothing held |
| Heap.FindPlace | user/libc/stdlib.c:86-91 | the search ends at the one list position the block belongs after, from wherever it starts |
| Heap.Relink | user/libc/stdlib.c:92-103 | the four cases of joining above and below rewrite exactly two headers |
| Heap.RewrittenIsFreed | user/libc/stdlib.c:92-103 | those two headers are the memory of inserting the block and merging it with the neighbours it touches |
| Heap.Free | user/libc/stdlib.c:79-105 | the block leaves the held ones, joined with free neighbours on both sides; no cell of any other held block changes |
| Heap.Morecore | user/libc/stdlib.c:35-48 | new core becomes one free block of at least the request, joined to the top of the heap; refused only at the heap limit |
| Heap.Carve | user/libc/stdlib.c:59-69 | a block of the exact size leaves the list, a larger one gives up its tail; no held cell changes |
| Heap.Malloc | user/libc/stdlib.c:50-77 | a new block disjoint from all held ones and large enough, within one lap of the list before and one after growing; refused exactly for a bad size or if no gap between held blocks is large enough and the heap cannot grow; it grows only if no gap is |
| Heap.Realloc | user/libc/stdlib.c:120-141 | in place when it fits; otherwise a new block with the old contents takes its place; it fails exactly if a larger block is wanted and malloc would refuse it, and then everything is as before |
| Heap.HeldApart | user/libc/stdlib.c:50-77 | held blocks lie in the heap and do not overlap |
| Heap.GapInBlock | user/libc/stdlib.c:92-103 | as free blocks never touch, any gap between held blocks lies in one of them |
| HeapRun.Perform | user/libc/stdlib.c:50-141 | one call does to the program's blocks, their contents and the end of the heap what it should, determined up to the choice of address; a new block is apart from all others, and a call is refused exactly when malloc refuses |
| HeapRun.Run | user/libc/stdlib.c:50-141 | any calls and stores, one by one, do to the program's view of its blocks what they should: a new block apart from all others, a resized one with its contents, each store seen by that block alone, refusals exactly when nothing fits; the arena holds exactly that view at the end |
| RingQueue.Ring.Put | kernel/tcp.c:131-143 | appends exactly as much as fits, never less |
| RingQueue.Ring.Drain | kernel/tcp.c:352-355 | takes the oldest bytes off, as many as asked or as there are |
| RingQueue.Occupied | kernel/tcp.c:82-87 | the index arithmetic counts the bytes in the ring |
| Tcp.DiffIs | kernel/tcp.c:77-80 | offsets closer than 2^31 compare as their 32-bit sequence numbers do |
| Tcp.Conn.Establish | kernel/tcp.c:182-191 | the answer to our SYN opens the connection with both streams at their start |
| Tcp.Conn.InputReset | kernel/tcp.c:174-180 | a reset marks the connection and frees a lingering slot, losing nothing already received |
| Tcp.Conn.Input | kernel/tcp.c:145-227 | whatever the 32-bit numbers, a truthful segment does exactly what it would do on unbounded offsets, and received bytes stay a prefix of the peer's stream; the window's right edge never moves left; a finished teardown had both streams complete |
| Tcp.Conn.TakeAck | kernel/tcp.c:193-197 | by 32-bit comparison, exactly the acknowledgements ahead of the current offset move it, and to what the peer acknowledged |
| Tcp.Conn.TakeData | kernel/tcp.c:199-207 | by 32-bit comparison, exactly min(length, window) of in-order data is accepted, out-of-order data changes nothing, the right edge stays |
| Tcp.Conn.TakeFin | kernel/tcp.c:208-216 | by 32-bit comparison, the end of stream counts exactly once, when every byte before it has arrived |
| Tcp.Conn.Settle | kernel/tcp.c:218-226 | a closed socket is freed exactly when the peer's FIN has come and ours is acknowledged, and then both streams are complete |
| Tcp.Conn.Recv | kernel/tcp.c:339-372 | returns as many of the oldest bytes as there is room for; end of stream exactly when nothing is buffered and the FIN has come, and then the whole stream has been returned |
| Tcp.Conn.SendOpen | kernel/tcp.c:295-300 | a send starts exactly on an established connection neither reset nor closed |
| Tcp.Conn.Claim | kernel/tcp.c:303-311 | the next chunk, at most 1460 bytes, gets the sequence numbers after all given out, and no other send changes |
| Tcp.Conn.Transmit | kernel/tcp.c:314-317 | every transmission of a chunk carries the same bytes for the same numbers |
| Tcp.Conn.Poll | kernel/tcp.c:319-325 | a chunk seen as acknowledged is held by the peer at its place, also with other senders on the socket; it is seen as such exactly when acknowledged, unless the stream has run 2^31 bytes past it |
| Tcp.Conn.SendDone | kernel/tcp.c:295-337 | the length is returned only if the peer holds every byte of the buffer, chunk by chunk in order |
| Tcp.Conn.SendFail | kernel/tcp.c:330-333 | a send that gives up poisons the connection |
| Tcp.Conn.SendKilled | kernel/task.c:311-332 | a sender killed in the middle leaves nothing behind that waits for its chunk |
| Tcp.Conn.Release | kernel/tcp.c:387-409 | the last close sends one FIN and lingers, or frees the slot of a reset connection |
| Tcp.OneEvent | kernel/tcp.c:145-409 | one arrival or one pass of a task does exactly what the connection in absolute offsets does; end of stream and completed sends are reported exactly when they happen |
| Tcp.Run | kernel/tcp.c:145-409 | over any events, killed senders included: seen in absolute offsets each event does exactly what it should; bytes read are a prefix of the peer's stream, all of it once end of stream was seen; end of stream is reported exactly if some read saw it, and the sends reported complete are exactly those completed, in order, each with the peer; the right window edge never moves left |
| Pipes.Pipe.AddRef | kernel/pipe.c:30-39 | the count of that end goes up; an end nobody holds cannot come back |
| Pipes.Pipe.Release | kernel/pipe.c:41-54 | the count of that end goes down; the pipe is dead exactly when both are zero |
| Pipes.Pipe.ReadStep | kernel/pipe.c:56-78 | hands out as many of the oldest bytes as asked or as there are; end of file exactly when none are left and no writer remains |
| Pipes.Pipe.WriteStep | kernel/pipe.c:80-103 | appends the next bytes of the buffer, stopping only on a full ring, failing only without readers |
| Pipes.Perform | kernel/pipe.c:30-103 | one operation changes ends and contents as a queue of bounded length would, with its reader's or writer's result |
| Pipes.Interleave | kernel/pipe.c:30-103 | for any interleaving the pipe is a queue of bounded length: ends, contents and every reader's and writer's result are those of the queue; bytes read followed by the ring are the bytes written, as many as writers were told, and end of file is permanent |
| Descriptors.CountPut | kernel/task.c:35-55 | changing one slot changes the number of slots naming a thing by exactly what it gained or lost |
| Descriptors.NamedIsOpen | kernel/tcp.c:374-409 | a socket an open descriptor names is established: never free, lingering or handed out again |
| Descriptors.FileClose | kernel/task.c:44-55 | the slot is cleared and its one reference dropped; a pipe goes exactly when both counts reach zero |
| Descriptors.Close | kernel/syscall.c:391-399 | closes an open descriptor in range, refuses any other |
| Descriptors.CloseAll | kernel/task.c:60-67 | all slots of the task are cleared, no other table changes |
| Descriptors.Spawn | kernel/task.c:154-164 | the child's three descriptors are copies, each counted |
| Descriptors.Exec2 | kernel/syscall.c:437-457 | fails without effect exactly on a bad descriptor or a program that cannot be loaded; otherwise the child gets what the map names, each counted |
| Descriptors.FindFree | kernel/syscall.c:410-418 | the first free descriptor past the standard three |
| Descriptors.MakePipe | kernel/syscall.c:403-430 | the two lowest free slots name the ends of a new pipe with counts one and one, or nothing happens |
| Descriptors.PickSlot | kernel/tcp.c:245-260 | aged lingering sockets, and only those, are reclaimed, and the lowest free slot is handed out |
| Descriptors.ConnectStart | kernel/tcp.c:261-273 | exactly if there is a free descriptor, a gateway and, once aged sockets are reclaimed, a free socket, the lowest of each are set aside for the caller |
| Descriptors.ConnectDone | kernel/syscall.c:625-631 | the reference of the pending connect becomes the descriptor's |
| Descriptors.ConnectFail | kernel/tcp.c:289-292 | the slot of a failed connect is free again |
| Descriptors.NetEstablish | kernel/tcp.c:182-191 | only a socket waiting for its handshake becomes established |
| Descriptors.NetEnd | kernel/tcp.c:221-226 | only a lingering socket becomes free by what arrives |
| Descriptors.Release | kernel/tcp.c:387-409 | the count goes down; at zero the socket lingers or is free |
| Descriptors.Leave | kernel/task.c:211-225 | a dying task's references are all dropped; counts stay exact over the tasks that remain |
| RoundRobin.GoneForGood | kernel/task.c:231-248 | a task that left the ready queue is never picked again |
| RoundRobin.Fair | kernel/task.c:74-100 | between two turns of a task that stays ready no other task runs twice, whatever is spawned, exits or is killed in between |
| Tasks.Schedule | kernel/task.c:74-100 | picks the next larger pid among the ready tasks, or the smallest, also when the current task has just died |
| Tasks.KernelIsHead | kernel/task.c:302-313 | the kernel task heads the ready queue as long as it is in it |
| Tasks.FindTail | kernel/task.c:199-203 | the walk ends at the last ready task |
| Tasks.Enqueue | kernel/task.c:199-204 | the new task goes to the end of the one acyclic list |
| Tasks.Spawn | kernel/task.c:131-209 | a new pid at the end of the queue with its descriptors counted |
| Tasks.Exit | kernel/task.c:211-257 | the current task moves from the queue to the zombies and drops its descriptors; the last task cannot |
| Tasks.FindPrev | kernel/task.c:236-239 | the walk finds the task before the current one |
| Tasks.Bury | kernel/task.c:243-248 | the dead task heads the zombie list, linked apart from the ready queue |
| Tasks.Kill | kernel/task.c:293-334 | a ready task that is neither head nor current moves to the zombies and drops its descriptors, all others in order as before; the caller goes on |
| Tasks.Search | kernel/task.c:302-309 | the walk finds a ready pid and the task before it |
| Tasks.TaskAlive | kernel/task.c:281-291 | true exactly for pids in the ready queue |
| Tasks.TakeZombies | kernel/task.c:259-264 | the reaper takes the whole zombie list, leaving it empty |
| Tasks.FreeOne | kernel/task.c:266-278 | the task freed is never ready and never running |
| Tasks.Exec | kernel/syscall.c:437-457 | exec2 adds one task with the next pid and the shared descriptors at the end of the queue, or nothing, exactly when a descriptor is bad or the program cannot be loaded |
| Tasks.ExecConsole | kernel/syscall.c:574-598 | a program on a console of its own joins the end of the queue with that console as its three descriptors |
| Tasks.Perform | kernel/task.c:74-334 | each event does to queue, zombies, current task, pids, descriptor tables and sockets what it should, one scheduling decision per tick or death, and keeps counts and trace right; the kernel task leaves the queue only by exiting itself |
| Tasks.Run | kernel/task.c:74-334 | over any events, one by one as they should: the ready queue stays one ascending acyclic list disjoint from the zombies, a task that leaves it leaves the others in their order, pipe and socket counts equal the descriptor slots of live tasks, a pipe end nobody holds stays unheld, and the scheduler's trace stays fair |
| Surfaces.FitsWindow | kernel/wsurf.c:38-41 | a surface's pages fit its window and its pixels stay within the pool |
| Surfaces.MapRange | kernel/wsurf.c:43-53 | exactly the range maps to consecutive frames, every other page as before |
| Surfaces.UnmapRange | kernel/wsurf.c:56-65 | exactly the range is unmapped |
| Surfaces.Create | kernel/wsurf.c:67-110 | one surface per task in the lowest free slot, aliased at the client window only; refused only for a bad size, a second surface or lack of slots |
| Surfaces.Map | kernel/wsurf.c:149-163 | a used slot gets the caller as its one server, aliased at its server window only |
| Surfaces.Unmap | kernel/wsurf.c:188-203 | the server's aliases go; the slot is free once the owner is gone too |
| Surfaces.DropServer | kernel/wsurf.c:195-201 | the server's window of the slot is emptied with the size it was mapped with |
| Surfaces.DropOwner | kernel/wsurf.c:212-218 | the client window is emptied with the size it was mapped with |
| Surfaces.TaskExit | kernel/wsurf.c:205-228 | no page of the window area is left in a dying task's directory; every slot is exactly as its owner's and server's leaving makes it, slots of other tasks unchanged, and the task's own pages are untouched |
| Surfaces.LeftOthers | kernel/wsurf.c:205-228 | a task that leaves a slot has nothing of it any more and takes nothing from anybody else |
| Surfaces.DeadHasNoAlias | kernel/task.c:219-225 | a dead task's directory holds no frame of the pool nor any other kernel frame |
| Surfaces.FirstFrame | kernel/paging.c:43-59 | the lowest clear bit |
| Surfaces.AllocPage | kernel/paging.c:61-76 | a frame nobody had is marked and mapped once |
| Surfaces.NewTask | kernel/paging.c:193-219 | a new directory has no entry of its own |
| Surfaces.MapDevice | kernel/syscall.c:516-523 | a page beyond RAM is mapped without touching the bitmap's owners |
| Surfaces.FreeDirectory | kernel/paging.c:96-124 | exactly the task's own frames return to the bitmap, never a kernel frame nor another task's |
| Surfaces.SlotsShare | kernel/wsurf.c:18-21 | two slots map disjoint frames except that slot 0 beyond 468 pages shares one frame with slot 1 |
| Surfaces.TwoFullSurfaces | kernel/wsurf.c:67-110 | two tasks that open the largest surface each see one frame, at the last page of the first and the first of the second |
| Surfaces.Perform | kernel/wsurf.c:67-228 | each operation does to tasks, slots, frames and directories what it should: the lowest free frame on a page, all frames of a reaped task and no others back |
| Surfaces.Run | kernel/wsurf.c:38-228 | over any starts, pages, creates, maps, unmaps, exits and reaps, one by one as they should, a surface being opened exactly if its size is legal, a slot is free and the task has none: kernel frames stay marked and dead tasks' directories hold none of them |
| Grep.HereIsPrefix | user/grep.c:8-33 | matching at the start succeeds exactly if some prefix, the whole text for a final $, is in the language of the pattern |
| Grep.MatchIsContains | user/grep.c:35-46 | match succeeds exactly if the line holds a word of the language, at the start for ^, up to the end for $ |
| Grep.LinesRoundTrip | user/grep.c:75-94 | lines and rest put together again are the stream, and no piece holds a newline |
| Grep.Scan | user/grep.c:75-88 | prints the matching finished lines of the buffer and leaves the unfinished one |
| Grep.Reserve | user/grep.c:59-67 | growing the buffer keeps its contents and makes room |
| Grep.Shift | user/grep.c:89-94 | the unfinished line moves to the front unchanged |
| Grep.Run | user/grep.c:48-105 | the output is the matching lines in order however reads cut the input and however often the buffer grows |
| Numbers.DigitsValue | user/libc/stdio.c:44-57 | digits printed are worth the number, with no leading zero |
| Numbers.FmtNum | user/libc/stdio.c:44-57 | the loop prints exactly those digits and eleven characters always suffice |
| Numbers.CutTest | user/libc/stdlib.c:181 | the overflow test is exact |
| Numbers.Digitize | user/libc/stdlib.c:179-187 | the 32-bit accumulator holds the value of any run of digits, or it is known to be past the limit |
| Numbers.ReadSign | user/libc/stdlib.c:159-167 | white space is skipped and one sign read |
| Numbers.Strtol | user/libc/stdlib.c:157-198 | the value of the digit run in its base, clamped to long, and where it ends, for any string and every base up to 99, 0, 1 and negative ones included |
| Numbers.DecimalRoundTrip | user/libc/stdio.c:111-121 | strtol base 10 of the %d rendering is the number, for every 32-bit value, to the end of the string |
| Numbers.HexRoundTrip | user/libc/stdio.c:125-130 | strtol base 16 of the %x or %X rendering is the number up to LONG_MAX, and LONG_MAX above |
| Printf.Sink.Emit | user/libc/stdio.c:29-40 | one byte goes to the text; the buffer holds what fits of it, the descriptor side loses nothing |
| Printf.ReadDirective | user/libc/stdio.c:66-105 | flags, width, precision and length modifiers as the directive spells them |
| Printf.MakeBody | user/libc/stdio.c:107-151 | the text of each conversion |
| Printf.EmitField | user/libc/stdio.c:164-191 | the text with sign, zeros and blanks in its field |
| Printf.FieldWidth | user/libc/stdio.c:164-191 | a field is as wide as asked or as its text needs, precision counts digits and not the sign, right-aligned text ends the field |
| Printf.PlainDecimal | user/libc/stdio.c:111-121 | a bare %d prints the decimal numeral |
| Printf.PlainHex | user/libc/stdio.c:125-130 | a bare %x or %X prints the hexadecimal numeral |
| Printf.Format | user/libc/stdio.c:59-193 | the bytes pushed at the sink are the rendering of format and arguments, whatever the sink |
| Printf.Vsnprintf | user/libc/stdio.c:195-203 | the count is that of the whole rendering at any capacity, the buffer its longest prefix that fits, terminated |
| Printf.DecimalThere | user/libc/stdio.c:195-203 | what snprintf prints for %d strtol reads back as the number, for every 32-bit value, to the end of the text |
| Printf.HexThere | user/libc/stdio.c:195-203 | likewise for %x and %X up to the largest long; larger values read as it |
| Printf.Vdprintf | user/libc/stdio.c:214-220 | the descriptor is given the whole rendering |
| Checksum.SumConcat | kernel/net.c:76-88 | summing even-length pieces in turn is summing their concatenation |
| Checksum.CsumAdd | kernel/net.c:76-88 | the 32-bit accumulator is the word sum, without wrap-around for any packet length |
| Checksum.FoldMod | kernel/net.c:90-94 | folding keeps the value modulo 65535 and yields zero only for zero |
| Checksum.CsumFin | kernel/net.c:90-96 | the fold loop ends with the complement of the folded sum |
| Checksum.Finish | kernel/tcp.c:115-125 | with the computed checksum in place, summing pseudo-header and packet again gives zero |

## Left out

- Drivers, interrupt and fault stubs, boot code, console, keyboard, framebuffer drawing: device registers and CPU behaviour.
- The kernel heap: objects it returns are taken as fresh.
- ELF loading: exec is a new directory, fresh frames and a spawn; whether the program loads is a parameter.
- ARP, DNS, TLS, the browser and the window manager.
- Cached lengths of ext2 nodes, names in cached nodes, time stamps and owners of inodes (in `Ext2Bytes` those bytes are a parameter).
- The operations work on the decoded volume; `Ext2Bytes` shows that each kind of block write commutes with decoding, for counts that fit their fields.
- Reading the root inode at mount: the starting volume is one whose root is a live directory.
- Failing reads and failing realloc in grep, which end the program early. Whether the search for the gateway before a connect succeeds is a parameter.
- Timeouts and retry counts of TCP: a sender may give up at any point; liveness is not claimed. Segment assembly and demultiplexing by port.
- A connect whose task is killed keeps its socket slot: half-open sockets are not reclaimed by the code.
- The ring of exit codes, calloc, atoi, and the surface event queue with its coalescing of mouse moves.
- Tasks.Kill: killing oneself is modelled as the exit it turns into (`Tasks.Perform`).
- Surfaces.FirstFrame: walks the bits one by one; the skip of full 32-bit words is not modelled, only that the last partial word is never used.
- Printf.Format: arguments of the wrong type, undefined in C, read as 0 or the empty string; widths and precisions are unbounded integers.
- Numbers.Strtol: bases of 100 and above are excluded, where the scan runs past the end of the string.
