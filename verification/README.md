# Proofs about a MIPS teaching kernel

This project models the hard parts of a small MIPS operating system (kernel, user library, file
server) and proves what they are for. Each part has three layers: functions that say what one
operation does to a state, theorems about those functions, and classes or methods in the form of
the C code, proved to compute the functions, so that the theorems speak of the code.

- **Memory.** `Mmu`, `PageTables`: physical pages, two-level page tables that are pages themselves,
  reference counts, the free list and a TLB of entry pairs. `PageEffects`, `PageInvariants`,
  `PageMap`, `Spaces`, `VmRuns`: exact counts, refinement to a map, release of a whole address space,
  TLB coherence over all runs. `MemCalls`:
  what the callers rely on. `ZeroPage`: the one page that is an exception. `Pmap`: the same in place.
- **Copy-on-write.** `CowFork`: fork, duppage and cow_entry of any number of environments,
  interleaved at system calls and stores. `CowRefinement`: it cannot be told from a fork that copies
  everything. `Fork`: the loop.
- **Pipes.** `PipeClose`: end-of-pipe detection from two reference counts, with any number of
  environments. `PipeFork`: what a fork that copies page by page does to it. `FdCalls`: dup and close.
  `PipeFifo`, `PipeIo`: the ring buffer, preempted at every access.
- **File server.** `Bitmaps`, `Blocks`, `FileServer`: who owns a block. `FsFormat`: the image builder.
  `PathNames`, `Paths`: lookup, creation and removal by path. `StaleBlocks`: directory blocks that come
  back. `DiskLayout`: constants.
- **Environments.** `Envs`, `EnvInvariants`, `EnvRuns`, `EnvCalls`: scheduling list, ASIDs, identifiers, answers.
  `RoundRobin`: the exact times of weighted round robin. `Ipc`: messages read are messages sent.
  `EnvKernel`: the same in place. `Queues`: the lists they are made of, at the level of links.
- **Algorithms.** `AbsPath` (format_abspath), `ElfLoad` (elf_load_seg), `PrintNum` (print_num).

`dafny verify dfyconfig.toml` checks everything.

Where the code does not do what its comments or design promise, the code is modelled as it is. In these
cases a theorem gives the exact condition for the promise, and where a run is needed to get there, one leads
there:

- A message may map page 0 of its receiver; for ASID 0 the TLB then is not flushed reliably (`CleanIff`,
  `SendLeavesStale`).
- Touching the page-table window above UVPT leaks a page (`WindowLeaks`).
- The permissions that duppage reads may be stale at its first mem_map (`DupMap1Iff`, `StaleDupLeaks`,
  `StaleDupReachable`).
- A block that becomes an index block may still be cached with old words (`StaleIndexIff`,
  `StaleIndexReachable`), and one that comes to a directory with old entries (`CreateSafeIff`,
  `RemovedEntryReturns`).
- sys_set_env_status breaks the list if it wakes an environment out of receive (`SetStatusIff`,
  `ThenListedTwice`), and destroying one that is not runnable may (`RemoveUnlinkedIff`).
- format_abspath depends on what was in its buffer (`FormatIff`).
- elf_load_seg maps the first page twice, and loses file bytes, for some unaligned segments
  (`EachOnceIff`, `FileBytesLost`).
- file_create reports E_NOT_FOUND when the disk is full, and leaves the directory longer
  (`CreateFails`).
- Counts have 16 bits and identifiers 21 bits of a counter (`CountExactIff`, `NewIdIff`).
- A fork that copies page by page can mislead a pipe (`MidForkAnswer`, `MisledReachable`).

Two more are just shown: dup of a descriptor to itself closes it (`Dup`), and an environment of priority 0
is never preempted (`ZeroRunsOn`).

## Model

| member | source | states |
|---|---|---|
| `PageInvariants.AllocKeeps` | kern/pmap.c:132-153 | page_alloc hands out the head of the free list: cleared, count 0, referenced by nothing, gone from the list; all invariants stay |
| `PageInvariants.LossKeeps` | kern/pmap.c:304-311 | page_decref keeps the counts exact and puts the page on the free list exactly when the lost reference was the last |
| `PageInvariants.GainKeeps` | kern/pmap.c:263-266 | one more reference to a page that is not free keeps the counts exact, while there are fewer than 65535 |
| `PageInvariants.RemoveKeeps` | kern/pmap.c:316-332 | page_remove drops exactly one reference and frees the page iff it was the last; tables, counts, free list and TLB stay consistent |
| `PageInvariants.NewTableKeeps` | kern/pmap.c:186-221 | a page table made on the way is one new reference and, being zeroed, maps nothing; every invariant stays |
| `PageInvariants.MapKeeps` | kern/pmap.c:250-268 | filling an empty entry adds exactly the reference of that entry and keeps every invariant |
| `PageInvariants.RemapKeeps` | kern/pmap.c:240-247 | inserting the page that is already mapped changes permissions and no reference; every invariant stays, the agreement of the TLB among them |
| `PageInvariants.CoherentAfter` | kern/tlb_asm.S:3-32 | after a change to one page of one space, tlb_out of that page restores agreement of every TLB entry with the tables, those of pages 0 and 1 of ASID 0 aside |
| `PageMap.LookupIsMapGet` | kern/pmap.c:277-297 | page_lookup is lookup in the map from (space, virtual page) to (physical page, permissions) that the two-level tables stand for |
| `PageMap.RemoveIsMapRemove` | kern/pmap.c:316-332 | page_remove deletes that key and touches no other; the contents of user pages stay |
| `PageMap.InsertIsMapUpdate` | kern/pmap.c:235-269 | page_insert updates that key and no other, fresh page table included, at address 0 as well; it fails iff the table is missing and no page is free, and then only the TLB has changed |
| `PageMap.RemapIsMapUpdate` | kern/pmap.c:240-247 | the remapping branch is map update of the same page with new permissions |
| `PageMap.CountExactIff` | include/pmap.h:22 | filling an empty entry keeps pp_ref (16 bits) exact iff the page had fewer than 65535 references |
| `Spaces.SetupKeeps` | kern/env.c:192-218 | env_setup_vm makes a space out of the first free page and disturbs no other |
| `Spaces.SetupView` | kern/env.c:192-218 | the new space maps no user page |
| `Spaces.FreePtesReleases` | kern/env.c:411-416 | the inner loop of env_free drops exactly the references of one page table and frees exactly the pages that had no other |
| `Spaces.FreeTablesReleases` | kern/env.c:402-424 | the outer loop does so for all tables below UTOP, and for the tables themselves |
| `Spaces.EnvFreeReleases` | kern/env.c:395-429 | env_free returns to the free list exactly the pages that only the dead environment referenced, and leaves every other space as it was |
| `Spaces.DeadAsidHasNoTranslation` | kern/env.c:425-429 | no valid private translation in the TLB carries the ASID of a dead space, so that it may be given out again; for pages 0 and 1 of ASID 0 that needs page 0 never to have been mapped |
| `VmRuns.RefillKeeps` | kern/tlbex.c:48-68 | a TLB refill into any slot keeps every invariant, backs an unmapped user page with a fresh one, makes an empty page table where the window at UVPT is touched, and otherwise leaves the map alone |
| `VmRuns.AllocFresh` | kern/pmap.c:132-153 | page_alloc followed by page_insert maps a zeroed page and nothing else |
| `VmRuns.PassiveAllocKeeps` | kern/tlbex.c:18-43 | passive_alloc maps a fresh zeroed page, writable, at the faulting address and nowhere else; in the window at UVPT it makes a page table and maps nothing; and when it panics |
| `VmRuns.WindowLeaks` | kern/tlbex.c:18-43 | passive_alloc in the window keeps the counts exact iff the page touched belongs to a table below UTOP; above, the page allocated leaks |
| `VmRuns.IpcSendIsMapUpdate` | kern/syscall_all.c:443-450 | the page of a message is the same map update at the address the receiver gave, 0 included; it is mapped iff the sender has it and a table is there or can be made |
| `VmRuns.StoreKeeps` | kern/tlbex.c:82-101 | a user store changes the words of one user page and no table, count or translation |
| `VmRuns.MemMapIsMapUpdate` | kern/syscall_all.c:178-208 | sys_mem_map copies one entry of the map to another key, or fails and leaves map, counts and free list alone |
| `VmRuns.StepKeeps` | kern/pmap.c:132-332 | each operation on memory, system calls, messages with pages, refills and user stores included, keeps all invariants |
| `VmRuns.RunKeeps` | kern/pmap.c:132-332 | after every run of these counts are exact, free pages unreferenced and listed once, tables private, and the TLB coherent with at most one entry for each ASID and page pair but the first of ASID 0 |
| `VmRuns.HardwareSeesTheMap` | kern/tlb_asm.S:34-56 | a valid half of a TLB entry for a user page is the entry of that environment in the map, but for page 0 of ASID 0 once that has been mapped |
| `ZeroPage.CleanIff` | kern/syscall_all.c:443-450 | page 0 of ASID 0 stays unmapped and untranslated by every operation iff it is not a message whose page goes to the environment of ASID 0, received with destination 0 |
| `ZeroPage.StaleTranslation` | kern/tlb_asm.S:3-32 | where it was mapped, a cleared entry hides its translation from tlb_out: it outlives its environment, and the next of that ASID has it |
| `ZeroPage.SendLeavesStale` | kern/syscall_all.c:443-450 | a run from such a message to that state, from any state with a cleared TLB entry |
| `Mmu.EntryFlags` | kern/pmap.c:262-265 | the word that page_insert stores is valid, names the page given, and has PTE_D, PTE_COW and PTE_LIBRARY each iff the permissions asked for do |
| `Mmu.HwKeeps` | kern/tlbex.c:60-66 | the half that goes to the TLB has the page of the entry and lets the same accesses through |
| `Mmu.UserIff` | kern/syscall_all.c:114-116 | the pages accepted are those of the addresses from UTEMP up to UTOP |
| `MemCalls.InsertGains` | kern/pmap.c:235-269 | after page_insert that address maps that page with the permissions asked for, and every other address what it mapped |
| `MemCalls.StoreIff` | kern/tlbex.c:82-101 | a user store changes exactly the word at its offset in the page mapped, iff the entry has PTE_D |
| `MemCalls.StoreAfter` | kern/pmap.c:262-265 | after a page is mapped a store to the address reaches it iff the permissions asked for have PTE_D |
| `MemCalls.CachedAfter` | kern/pmap.c:251-253 | and a valid translation of the address in the TLB goes to that page and lets stores through iff they have |
| `MemCalls.MemAllocIff` | kern/syscall_all.c:141-162 | sys_mem_alloc maps a cleared page at the address with the permissions asked for; it succeeds iff the address is a user address and there are pages for it and its table |
| `MemCalls.MemMapIff` | kern/syscall_all.c:178-208 | sys_mem_map maps the page of the source at the destination with the permissions asked for; it succeeds iff both are user addresses, the source is mapped and a table is there or can be made |
| `MemCalls.MemUnmapIff` | kern/syscall_all.c:220-236 | sys_mem_unmap succeeds iff the address is a user address; then exactly that page is gone from the map, and otherwise nothing has changed |
| `MemCalls.SendGains` | kern/syscall_all.c:443-450 | the page of a message is mapped for the receiver with the permissions that the sender gave |
| `MemCalls.PassiveGains` | kern/tlbex.c:18-43 | a page backed on demand is cleared and writable |
| `MemCalls.BackableIff` | kern/tlbex.c:21-39 | the addresses at which passive_alloc does not panic, in terms of UTEMP, USTACKTOP, UENVS, UVPT and ULIM |
| `MemCalls.RefillServes` | kern/tlbex.c:48-68 | a refill succeeds iff the page is mapped or can be backed; then the entry written serves the access that missed |
| `Pmap.InitialInv` | kern/pmap.c:93-117 | the state at boot satisfies every invariant, whatever the memory holds but for the two windows of the template directory |
| `Pmap.Memory.constructor` | kern/pmap.c:93-117 | page_init leaves the pages above the watermark free, once each, with count 0, and clears none |
| `Pmap.Memory.PageAlloc` | kern/pmap.c:132-153 | changes the state exactly as the function the theorems are about |
| `Pmap.Memory.PageDecref` | kern/pmap.c:304-311 | the same, for dropping a reference |
| `Pmap.Memory.PgdirWalk` | kern/pmap.c:186-221 | the same, for the walk that makes missing tables |
| `Pmap.Memory.PageLookup` | kern/pmap.c:277-297 | finds what the specification finds and changes nothing |
| `Pmap.Memory.TlbInvalidate` | kern/tlbex.c:13-15 | the same, for tlb_out |
| `Pmap.Memory.PageRemove` | kern/pmap.c:316-332 | the same, for unmapping |
| `Pmap.Memory.PageInsert` | kern/pmap.c:235-269 | the same, for mapping, on success and on failure; on success the address maps the page with the permissions asked for |
| `Pmap.Memory.EnvSetupVm` | kern/env.c:192-218 | the same, for a new space |
| `Pmap.Memory.EnvFree` | kern/env.c:395-429 | the nested loops compute the specification of env_free |
| `Pmap.Memory.PassiveAlloc` | kern/tlbex.c:18-43 | the same, for backing a page on demand |
| `Pmap.Memory.DoTlbRefill` | kern/tlbex.c:48-68 | the lookup loop ends and computes the refill |
| `Pmap.Memory.SysMemAlloc` | kern/syscall_all.c:141-162 | the same, for sys_mem_alloc; on success the first free page is mapped there with the permissions asked for |
| `Pmap.Memory.SysMemMap` | kern/syscall_all.c:178-208 | the same, for sys_mem_map |
| `Pmap.Memory.SysMemUnmap` | kern/syscall_all.c:220-236 | the same, for sys_mem_unmap; it succeeds iff the address is a user address, and then exactly that page is gone from the map |
| `Pmap.Memory.InsertWindow` | kern/tlbex.c:42 | page_insert of a page table through the window at UVPT |
| `Pmap.Memory.SendPage` | kern/syscall_all.c:443-450 | the page of a message |
| `CowFork.OtherBits` | user/lib/fork.c:58-66 | the permission bits other than PTE_D and PTE_COW are kept by duppage and cow_entry |
| `CowRefinement.StepKeeps` | user/lib/fork.c:16-157 | every system call, fault step and store, in any interleaving, keeps the sharing invariant of copy-on-write |
| `CowRefinement.StepRefines` | user/lib/fork.c:16-157 | each such step is a step of a machine in which fork copies every page at once |
| `CowRefinement.CowRefinesEagerCopy` | user/lib/fork.c:76-157 | over whole runs every environment reads what it would read had fork copied eagerly; a child page is the parent page at the moment its duppage returned |
| `CowRefinement.EagerReads` | user/lib/fork.c:55-75 | the machine compared with is a memory: a page reads back what was stored, a copy reads as its original, and a store shows where the page is shared and nowhere else |
| `CowRefinement.Isolation` | user/lib/fork.c:16-106 | whatever the other environments do, and wherever they stop in it, a private page keeps its contents |
| `CowRefinement.FaultResolves` | user/lib/fork.c:16-53 | cow_entry ends with the page owned and writable, and nobody can tell the difference |
| `CowRefinement.DupMap1Iff` | user/lib/fork.c:85-97 | the first mem_map of duppage keeps the invariant iff the permissions read before are still those of the page |
| `CowRefinement.StaleDupLeaks` | user/lib/fork.c:85-104 | if they are not, the parent can store to the page, and what it stores shows in the child |
| `CowRefinement.StaleDupReachable` | user/lib/fork.c:85-104 | a copy-on-write fault of the parent between the read and the call leads there |
| `Fork.Machine.Duppage` | user/lib/fork.c:76-106 | undisturbed, duppage gives the child exactly a copy of the page and changes nobody else's view |
| `Fork.Machine.ForkPage` | user/lib/fork.c:140-144 | one round of the loop copies one page, or skips an unmapped one |
| `Fork.Machine.Fork` | user/lib/fork.c:119-157 | the child starts with exactly the pages of the parent but the two at the top of the stack, and nobody else sees a change |
| `CowFork.InheritedIff` | user/lib/fork.c:140 | of the user pages fork leaves out the two at the top of the stack |
| `PipeClose.BuildingKeeps` | user/lib/pipe.c:41-58 | between the calls of pipe the other environments may do anything |
| `PipeClose.PipeEstablishes` | user/lib/pipe.c:36-82 | in any system, pipe leaves both ends with the buffer mapped beside them, and the protocol holds |
| `PipeClose.CloseSafe` | user/lib/pipe.c:238-243 | at every step of close a mapped end has the buffer beside it |
| `PipeClose.CopySafe` | user/lib/fd.c:152-169 | so at every step of dup, because the data page is mapped before the descriptor page |
| `PipeClose.UndoSafe` | user/lib/fd.c:172-181 | and on the error path of dup |
| `PipeClose.StepKeeps` | user/lib/fd.c:94-181 | any system call of any environment keeps the protocol, destroying itself included |
| `PipeClose.RunKeeps` | user/lib/fd.c:94-181 | so does any interleaving of them |
| `PipeClose.BufferOutnumbersEnds` | user/lib/pipe.c:96-102 | references to the buffer are at least those to the read end and the write end together |
| `PipeClose.CountsAreASnapshot` | user/lib/pipe.c:110-116 | the retry on env_runs makes the two counts those of one moment |
| `PipeClose.AnswerComes` | user/lib/pipe.c:110-116 | _pipe_is_closed answers when env_runs has not changed, and otherwise after one more round that is not interrupted |
| `PipeClose.ClosedMeansGone` | user/lib/pipe.c:95-117 | an end that is told "closed" has no other end: no environment maps it |
| `PipeClose.QuietAnswerIsExact` | user/lib/pipe.c:95-117 | with no dup or close in flight the answer is "closed" iff the other end is gone |
| `PipeClose.GoneStaysGone` | user/lib/pipe.c:95-117 | an end that nobody maps is not mapped again by any step |
| `PipeClose.ClosedIsForever` | user/lib/pipe.c:95-117 | nor by any run |
| `PipeFork.PartIff` | user/lib/fork.c:140-144 | at every moment of a page-by-page fork the references to an end equal those to the buffer iff the descriptors of that end given so far are as many as the descriptors of the other end and the buffers given so far |
| `PipeFork.MidForkAnswer` | user/lib/pipe.c:95-117 | an environment that asks at that moment is told "closed" in exactly that case |
| `PipeFork.MisledReachable` | user/lib/fork.c:140-144 | a run from a new pipe to a fork during which a writer is told "closed" while the reader is there |
| `FdCalls.DupMoves` | user/lib/fd.c:128-168 | the calls of dup make the new descriptor what the old one is, and touch no other |
| `FdCalls.Descriptors.Undo` | user/lib/fd.c:172-181 | the error path of dup |
| `FdCalls.Descriptors.Close` | user/lib/fd.c:94-106 | close makes exactly the calls the protocol is proved for |
| `FdCalls.Descriptors.Dup` | user/lib/fd.c:128-181 | so does dup; it fails iff a call of mem_map does, or the descriptor is duplicated to itself, and then leaves the new number closed |
| `PipeFifo.ReaderMoves` | user/lib/pipe.c:154-155 | each single access of the reader keeps positions, buffer and program points consistent, modulo 2^32 |
| `PipeFifo.WriterMoves` | user/lib/pipe.c:195-196 | and each single access of the writer |
| `PipeFifo.RunKeeps` | user/lib/pipe.c:145-157 | in any interleaving of single accesses the positions are at most 32 apart |
| `PipeFifo.DeliveredThenBuffered` | user/lib/pipe.c:20-26 | the bytes delivered followed by the bytes buffered are the bytes written |
| `PipeFifo.Fifo` | user/lib/pipe.c:132-201 | that holds after every run, across wrap-around of both positions |
| `PipeIo.Shared.PipeRead` | user/lib/pipe.c:132-159 | under preemption at every access, the bytes returned are the next bytes that were written: `n`, or at least those that were there; it ends early only at a test that finds the pipe empty, with none only when told that the pipe is closed, and asks that only of an empty pipe, as often as it is told no while it has nothing |
| `PipeIo.Shared.PipeWrite` | user/lib/pipe.c:172-201 | under preemption at every access, exactly the first bytes of the buffer are written, as many as the result says: all, or at least as many as there was room for, whatever the reader does; it ends early iff told that the pipe is closed, after every no before that, and asks only of a full pipe |
| `PipeIo.WriterMeanwhile` | user/lib/pipe.c:189-196 | however much the writer does, the reader keeps its place and what it got, and no byte leaves the pipe |
| `PipeIo.ReaderMeanwhile` | user/lib/pipe.c:148-155 | however much the reader does, the writer keeps its place and what it wrote, and no room is lost |
| `Blocks.FirstFreeIsLowest` | fs/fs.c:216-229 | alloc_block_num takes the lowest free block, and fails iff there is none |
| `Blocks.AllocNumTakes` | fs/fs.c:216-229 | exactly that bit changes, and the bitmap on disk then shows the block as used |
| `Blocks.AllocBlockTakes` | fs/fs.c:233-249 | alloc_block takes one block that nothing names, or takes nothing |
| `Blocks.AllocBlockIff` | fs/fs.c:233-249 | alloc_block fails exactly for want of a free block, or of memory for the lowest one |
| `Blocks.FreeBlockFrees` | fs/fs.c:195-208 | free_block sets exactly that bit, and none for block 0 or past the disk |
| `Blocks.MapBlockKeeps` | fs/fs.c:366-438 | file_map_block gives the slot a block of its own and changes no other slot of any file; the disk never shows as free what memory holds as used; no block is taken but for the file |
| `Blocks.MapBlockTakes` | fs/fs.c:366-438 | it takes exactly the block of an empty slot and the index block that is missing, both free before |
| `Blocks.MapBlockCauses` | fs/fs.c:366-438 | each error of file_map_block has its cause: a slot past the limit, an empty slot without alloc, no free block, no memory; without alloc nothing is taken |
| `Blocks.MapBlockPages` | fs/fs.c:366-438 | every page of the block cache is one of those that there were to map |
| `Blocks.StaleIndexIff` | fs/fs.c:378-392 | a new index block leaves all slots as they were iff its page was not still cached with old words |
| `Blocks.StaleIndexReachable` | fs/fs.c:442-456 | giving up a block of data that is in memory leads to the other case |
| `Blocks.ClearBlockKeeps` | fs/fs.c:442-456 | file_clear_block empties the slot and frees exactly its block |
| `Blocks.TruncateIsExact` | fs/fs.c:703-727 | in bytes: a slot that begins below the new size stays, one that begins from there up to the old size is emptied, the index block goes iff the new size is at most 40960, exactly the blocks given up are free again, and other files stay |
| `Blocks.TruncateCounts` | fs/fs.c:703-727 | the number of free blocks grows by one for each used slot that begins from the new size up to the old, and one for the index block |
| `Blocks.TruncateIff` | fs/fs.c:711-725 | file_truncate panics exactly when a slot that begins from the new size up to the old lies past the limit or in an index block that is missing or unreadable |
| `Blocks.TruncatePages` | fs/fs.c:703-727 | and it gives up no page of the block cache |
| `FileServer.Server.BlockIsFree` | fs/fs.c:181-191 | reads the bit of the block |
| `FileServer.Server.FreeBlock` | fs/fs.c:195-208 | changes the state exactly as the function the theorems are about |
| `FileServer.Server.AllocBlockNum` | fs/fs.c:216-229 | the loop finds the lowest free block and writes its bitmap block |
| `FileServer.Server.AllocBlock` | fs/fs.c:233-249 | the same, with the page mapped, or the bit given back |
| `FileServer.Server.ReadBlock` | fs/fs.c:94-134 | the same, for reading a block |
| `FileServer.Server.FileBlockWalk` | fs/fs.c:366-401 | the same, with the index block made if asked |
| `FileServer.Server.FileMapBlock` | fs/fs.c:414-438 | the same, for mapping a slot |
| `FileServer.Server.FileClearBlock` | fs/fs.c:442-456 | the same, for clearing a slot |
| `FileServer.Server.FileTruncate` | fs/fs.c:703-727 | both loops and the index block, or the panic; from an orderly state the slots, blocks and sizes are those of `TruncateIsExact` |
| `FsFormat.SaveBlockLinkKeeps` | tools/fsformat.c:173-185 | linking a block that nothing names keeps every block named once |
| `FsFormat.AppendKeeps` | tools/fsformat.c:273-275 | the block just handed out is linked in that slot and no other slot changes |
| `FsFormat.AppendAllKeeps` | tools/fsformat.c:273-275 | the block loop links one new block in each slot of the file and in no other |
| `FsFormat.MakeLinkBlockKeeps` | tools/fsformat.c:188-193 | a directory grows by one block of its own |
| `FsFormat.ImageMounts` | tools/fsformat.c:105-149 | an image that fits satisfies every ownership property of the file server, and its free blocks are exactly those not handed out |
| `FsFormat.Disk.constructor` | tools/fsformat.c:105-133 | init_disk leaves all blocks of the disk free in the bitmap and none linked |
| `FsFormat.Disk.CreateFile` | tools/fsformat.c:208-245 | create_file returns an unused File structure in a block of the directory, and a new block iff all were used |
| `FsFormat.Disk.WriteFile` | tools/fsformat.c:248-277 | a slot of the file has a block iff it begins below the size of the file; the file lies in its directory, which keeps its blocks, and other files keep theirs and their sizes |
| `FsFormat.Disk.FlushBitmap` | tools/fsformat.c:142-149 | the bitmap written marks as used exactly the blocks handed out |
| `PathNames.SlashSeparates` | fs/fs.c:575-580 | a slash separates components and repeated, leading or trailing ones change nothing |
| `PathNames.SplitJoin` | fs/fs.c:607-621 | splitting a path undoes joining its names |
| `Paths.WalkIsReach` | fs/fs.c:590-651 | walk_path finds what looking the components up one by one finds, its parent what all but the last find, and offers a directory to create in iff only the last is missing |
| `Paths.LookupIff` | fs/fs.c:501-532 | dir_lookup finds a structure iff it is in a block of the directory and has the name |
| `Paths.FirstNamedIsFirst` | fs/fs.c:501-532 | and it is the first such structure in the order of blocks and places |
| `Paths.OnePath` | fs/fs.c:590-651 | in a tree of directories a file is reached by one sequence of names only |
| `Paths.CreateOpens` | fs/fs.c:669-689 | after file_create the path opens that very structure, every other path opens what it opened, and names stay unique |
| `Paths.CreateIff` | fs/fs.c:669-689 | file_create succeeds iff the path opens nothing, all but its last component lead to a directory, that component is short enough, and the directory has an unused structure or can get a block |
| `Paths.CallErrors` | fs/fs.c:669-832 | what the callers of file_create and file_remove are told otherwise: that the file exists iff the path opens, that the path is bad iff the walk meets a component of 128 characters or more; file_remove succeeds iff the path opens |
| `Paths.CreateFails` | fs/fs.c:669-689 | it refuses a name iff the path opens; a failure changes the volume iff the directory is full and no block can be had, and then it says E_NOT_FOUND and leaves the directory a block too long |
| `StaleBlocks.CreateSafeIff` | fs/fs.c:537-571 | given a block that no directory holds, file_create affects no other path iff the directory has room, or what the block still shows has no name that the directory would newly find, and its first structure leads to none |
| `StaleBlocks.RemovedEntryReturns` | fs/fs.c:810-832 | a run to the other case: a directory is removed that has entries, and one of its blocks goes to another |
| `Paths.RemoveOpens` | fs/fs.c:810-832 | after file_remove the path and those below it open nothing, the others what they opened; removing the root empties it |
| `Paths.CreateThenRemove` | fs/fs.c:810-832 | removing what was just created restores every path |
| `Paths.SkipSlash` | fs/fs.c:575-580 | stops at the next component and skips nothing else |
| `Paths.NameEnd` | fs/fs.c:611-621 | finds exactly the next component |
| `Paths.Files.DirLookup` | fs/fs.c:501-532 | the two loops find the first structure of that name, or fail iff a block that cannot be had is met before it |
| `Paths.Files.DirAllocFile` | fs/fs.c:537-571 | takes the first unused structure, or the first of a new block, or fails as file_get_block does |
| `Paths.Files.Walk` | fs/fs.c:590-651 | the loop over characters computes the walk over components, errors included |
| `Paths.Files.FileCreate` | fs/fs.c:669-689 | creates exactly as the function the theorems are about, unless a block cannot be had |
| `Paths.Files.FileRemove` | fs/fs.c:810-832 | removes exactly as the function the theorems are about, unless a block cannot be had |
| `EnvInvariants.ScheduleKeeps` | kern/sched.c:38-52 | schedule keeps all lists and leaves the one that runs at the head |
| `EnvInvariants.BirthKeeps` | kern/env.c:239-289 | a new environment gets an ASID that no live one has and an identifier from the counter |
| `EnvInvariants.ExoforkKeeps` | kern/syscall_all.c:252-276 | sys_exofork keeps the invariant, also when no ASID is left |
| `EnvInvariants.CreateKeeps` | kern/env.c:372-390 | env_create puts the new environment at the head of the list of runnable ones |
| `EnvInvariants.KillKeeps` | kern/env.c:425-434 | env_free takes a runnable environment off the list and gives back its ASID |
| `EnvInvariants.RecvKeeps` | kern/syscall_all.c:366-389 | blocking in receive keeps the invariant |
| `EnvInvariants.SendKeeps` | kern/syscall_all.c:407-453 | a send, delivered or not, keeps the invariant |
| `EnvInvariants.StepKeeps` | kern/env.c:14-15 | an environment is in env_sched_list iff it is runnable, once; a free one in env_free_list, once; one blocked in receive is not runnable; the one that runs is the head; live ones share no ASID: kept by every entry |
| `EnvRuns.InitialInv` | kern/env.c:152-166 | env_init establishes that |
| `EnvRuns.RunKeeps` | kern/env.c:14-15 | it holds in every reachable state |
| `EnvRuns.SetStatusIff` | kern/syscall_all.c:290-319 | sys_set_env_status keeps it iff it does not make runnable an environment blocked in receive |
| `EnvRuns.ThenListedTwice` | kern/syscall_all.c:425-440 | if it does, the next send lists that environment twice |
| `EnvRuns.PanicIff` | kern/sched.c:44-47 | the kernel panics exactly when its last runnable environment blocks, stops or dies, or at boot when no environment or ASID is left |
| `EnvRuns.EnvidIff` | kern/env.c:108-143 | envid2env finds exactly the live environment of that identifier, with checkperm only the caller and its children |
| `EnvRuns.SameIdIff` | kern/env.c:90-93 | two identifiers are the same iff the environments are and the counts agree in 21 bits |
| `EnvRuns.NewIdIff` | kern/env.c:90-93 | after any run from boot, a new identifier was given before iff one was made for the same environment some multiple of 2^21 identifiers ago |
| `EnvCalls.YieldRotates` | kern/sched.c:36-49 | sys_yield, and the last tick of a turn, put the running environment behind all others, and the next in the list runs with its priority in slices |
| `EnvCalls.TickGoesOn` | kern/sched.c:36-52 | any other tick leaves it running with one slice less |
| `EnvCalls.NextRuns` | kern/sched.c:38-49 | where the one that ran is no longer runnable, the head of the list runs |
| `EnvCalls.StatusFails` | kern/syscall_all.c:290-301 | the errors of sys_set_env_status, which change nothing |
| `EnvCalls.StatusOfOther` | kern/syscall_all.c:303-319 | another environment has the status asked for and is listed iff it is runnable, behind all others if it was not listed; nothing else changes |
| `EnvCalls.StatusOfSelf` | kern/syscall_all.c:303-318 | on itself the call yields, or leaves the list to the next |
| `EnvCalls.ForkAnswers` | kern/syscall_all.c:252-276 | the identifier that sys_exofork answers names a new child of the caller with its priority, not runnable, with an ASID of its own; it fails iff no environment or no ASID is left |
| `EnvCalls.KillFails` | kern/syscall_all.c:80-87 | an environment that is not the caller or its child is not destroyed |
| `EnvCalls.KillOther` | kern/env.c:425-434 | a destroyed environment is free, first in the free list, in no scheduling list, and its ASID, and no other, is free |
| `EnvCalls.KillSelf` | kern/env.c:439-449 | and if it is the caller, the next in the list runs |
| `EnvCalls.RecvAnswers` | kern/syscall_all.c:366-389 | sys_ipc_recv refuses an address that is neither 0 nor a user address; otherwise it blocks the caller and the next in the list runs |
| `EnvCalls.SendAnswers` | kern/syscall_all.c:407-453 | what sys_ipc_try_send answers: E_IPC_NOT_RECV iff a live environment of that identifier is not receiving, E_BAD_ENV iff there is none, 0 only if it was receiving; and with those errors nothing has changed |
| `EnvCalls.SendDelivers` | kern/syscall_all.c:429-440 | where it is receiving, it has the message, is runnable and behind all others in the list |
| `RoundRobin.StepFair` | kern/sched.c:36-52 | if priorities are at least 1, every entry leaves the running environment between 1 and its priority slices |
| `RoundRobin.TicksRefine` | kern/sched.c:17-53 | under the timer alone the scheduler is a ring of slots with a counter |
| `RoundRobin.RunsItsTurn` | kern/sched.c:17-53 | the j-th in the list runs exactly from the end of its wait for as many ticks as its priority |
| `RoundRobin.WaitIs` | kern/sched.c:17-53 | the wait is what the head has left and the priorities of those between |
| `RoundRobin.WaitIsExact` | kern/sched.c:17-53 | it does not run before |
| `RoundRobin.RoundRepeats` | kern/sched.c:17-53 | a round takes the sum of all priorities and then repeats for ever |
| `RoundRobin.ZeroRunsOn` | kern/sched.c:38-40 | an environment of priority 0 is never preempted |
| `Ipc.SendFields` | kern/syscall_all.c:425-452 | a send that finds its target receiving sets its message fields and no others, also if the page cannot be mapped |
| `Ipc.EventKeeps` | kern/syscall_all.c:366-453 | between a receive and the read of its message, the message is put there once and stays |
| `Ipc.ReadIsSent` | user/lib/ipc.c:12-39 | in any run an environment reads the messages that callers asked to send to it, each once and in order, and each of its receives is ended by one send |
| `Ipc.ReadIsSentFromBoot` | user/lib/ipc.c:12-39 | so from boot on |
| `Ipc.OkIsSent` | kern/syscall_all.c:407-453 | a send that is answered with 0 is in the log of the environment that it named |
| `Ipc.AckedIsSent` | user/lib/ipc.c:12-22 | in any run the messages delivered to an environment are exactly those whose senders were told so, in that order |
| `EnvKernel.System.constructor` | kern/env.c:152-166 | the loop of env_init leaves every environment free, in the order of the array |
| `EnvKernel.System.AsidAlloc` | kern/env.c:28-39 | the lowest ASID not in use, or none |
| `EnvKernel.System.AsidFree` | kern/env.c:50-54 | clears exactly that bit |
| `EnvKernel.System.Envid2envOf` | kern/env.c:108-143 | the specification that is proved exact |
| `EnvKernel.System.Alloc` | kern/env.c:239-289 | changes the state exactly as the function the theorems are about, partial work of a failure included |
| `EnvKernel.System.DoSchedule` | kern/sched.c:17-53 | the same, for schedule, or the panic |
| `EnvKernel.System.SysExofork` | kern/syscall_all.c:252-276 | the same, for sys_exofork |
| `EnvKernel.System.SysSetEnvStatus` | kern/syscall_all.c:290-319 | the same, for sys_set_env_status |
| `EnvKernel.System.SysEnvDestroy` | kern/syscall_all.c:80-87 | the same, for sys_env_destroy with env_destroy and env_free |
| `EnvKernel.System.SysIpcRecv` | kern/syscall_all.c:366-389 | the same, for sys_ipc_recv |
| `EnvKernel.System.SysIpcTrySend` | kern/syscall_all.c:407-453 | the same, for sys_ipc_try_send |
| `EnvKernel.System.Create` | kern/env.c:372-390 | the same, for env_create |
| `Queues.Apart` | include/queue.h:68-72 | back links keep an element from occurring twice, in one list or in two |
| `Queues.OneReading` | include/queue.h:97-99 | the links determine the list |
| `Queues.InsertHeadKeeps` | include/queue.h:151-157 | LIST_INSERT_HEAD and TAILQ_INSERT_HEAD put the element in front of one list and leave the others |
| `Queues.InsertTailKeeps` | include/queue.h:211-217 | TAILQ_INSERT_TAIL appends it |
| `Queues.RemoveKeeps` | include/queue.h:165-170 | LIST_REMOVE and TAILQ_REMOVE take out exactly the element |
| `Queues.StepKeeps` | include/queue.h:151-244 | each operation has exactly its effect on the lists and none on the others |
| `Queues.RunKeeps` | include/queue.h:151-244 | so has any series of them, on any number of lists |
| `Queues.RemoveUnlinkedIff` | kern/env.c:433 | TAILQ_REMOVE of an element in no list, as env_free does to an environment that is not runnable, leaves all lists intact iff the links left in the element agree with them |
| `Queues.TwiceBreaks` | include/queue.h:211-217 | an element put into a queue that it is in already leaves links that spell no list |
| `Queues.Links.constructor` | include/queue.h:195-199 | empty lists spell themselves |
| `Queues.Links.ListInsertHeadMacro` | include/queue.h:151-157 | the stores of the macro, one by one, have the specified effect |
| `Queues.Links.TailInsertHeadMacro` | include/queue.h:201-209 | the stores of the macro, one by one, have the specified effect |
| `Queues.Links.TailInsertTailMacro` | include/queue.h:211-217 | the stores of the macro, one by one, have the specified effect |
| `Queues.Links.ListRemoveMacro` | include/queue.h:165-170 | the stores of the macro, one by one, have the specified effect |
| `Queues.Links.TailRemoveMacro` | include/queue.h:237-244 | the stores of the macro, one by one, have the specified effect |
| `AbsPath.CanonicalIsPlain` | user/lib/file.c:96-141 | a formatted path has exactly the names that remain after "." and "..", one slash before each, and no other |
| `AbsPath.Idempotent` | user/lib/file.c:96-141 | formatting twice changes nothing |
| `AbsPath.DotDotUndoes` | user/lib/file.c:120-125 | ".." undoes the name before it, wherever it stands |
| `AbsPath.NothingToDo` | user/lib/file.c:116-121 | ".", doubled slashes and ".." at the root do nothing |
| `AbsPath.AbsoluteIsRelative` | user/lib/file.c:79-94 | a relative path is taken from the working directory |
| `AbsPath.FormatIff` | user/lib/file.c:120-125 | for each path, the result is the formatted path iff buf[1] was not a slash, or the path leaves no spare name at the root, or nothing but the root is left |
| `AbsPath.NameFirst` | user/lib/file.c:120-125 | so it is for every path that begins with a name |
| `AbsPath.NamesAreRight` | user/lib/file.c:96-141 | its names are right whatever the buffer held |
| `AbsPath.FormatAbspath` | user/lib/file.c:96-141 | the loop over the two buffers computes exactly that, no longer than its input, inside the buffer |
| `AbsPath.Back` | user/lib/file.c:120-125 | moves back to just behind the slash before the last name, never before the root's |
| `AbsPath.Append` | user/lib/file.c:126-131 | writes the name and one slash |
| `AbsPath.Next` | user/lib/file.c:104-114 | finds exactly the next component and the slashes behind it |
| `ElfLoad.EachOnceIff` | lib/elfloader.c:25-60 | the pages of the segment are mapped each exactly once, and no other, iff it starts on a page, its file bytes fill the first page, or there are such bytes and no zeros after them |
| `ElfLoad.LoadsImage` | kern/env.c:308-330 | then the pages that overlap it hold the bytes of the file and zeros after them, and every other page is as it was |
| `ElfLoad.FileBytesLost` | lib/elfloader.c:53-58 | otherwise, where zeros follow, the first page ends up all zeros |
| `ElfLoad.OverlapsIff` | lib/elfloader.c:36-40 | the pages that overlap the segment are those counted |
| `ElfLoad.Loader.MapPage` | kern/env.c:308-330 | load_icode_mapper puts a zeroed page with the bytes copied in, or reports that there is none |
| `ElfLoad.Loader.LoadSeg` | lib/elfloader.c:25-60 | makes exactly the calls the theorems are about, or those up to the first without a page |
| `PrintNum.ReadsBack` | lib/print.c:212-285 | in any base from 2 to 16 the output, sign and padding included, reads back as the number |
| `PrintNum.DecimalReadsBack` | lib/print.c:86-107 | a signed number printed as %d reads back |
| `PrintNum.WidthIs` | lib/print.c:244-249 | the output is as wide as asked, or as the number with its sign |
| `PrintNum.PaddedBehind` | lib/print.c:244-256 | left-adjusted output is the number and then blanks |
| `PrintNum.PaddedBefore` | lib/print.c:244-264 | otherwise the padding comes first |
| `PrintNum.PaddedInside` | lib/print.c:257-261 | but zeros stand between the minus and the digits |
| `PrintNum.CaseIs` | lib/print.c:229-239 | digits beyond 9 are letters of the case asked for |
| `PrintNum.DigitsHead` | lib/print.c:229-239 | no leading zero but for the number 0 |
| `PrintNum.DigitsShort` | lib/print.c:225-226 | no more digits than bits, so that the buffer is large enough |
| `PrintNum.PutDigits` | lib/print.c:229-239 | the do loop leaves the digits in reverse |
| `PrintNum.Pad` | lib/print.c:251-264 | zeros go between digits and sign, blanks behind |
| `PrintNum.Reverse` | lib/print.c:266-282 | the loop reverses that part in place and leaves the rest |
| `PrintNum.Print` | lib/print.c:212-285 | the output is sign, padding and digits in the right order, without a write outside the buffer |

## Left out

- The windows at UENVS and UPAGES are in no TLB entry of the model.
- VmRuns.RunKeeps: nobody touches the window at UVPT above its own entry, where `WindowLeaks` says what happens; no user asks for PTE_G; a page mapped once more has fewer than 65535 references, which `CountExactIff` says is needed.
- ZeroPage.StaleTranslation: where several entries match a probe, the lowest one answers.
- Physical addresses are page numbers, the contents of user pages are words; alignment and the choice between word and byte access are not modelled. Permissions are the low 12 bits of an entry.
- Pmap.Memory.SysMemAlloc: the page allocated is lost, as in the code, when page_insert fails; so a page with count 0 need not be on the free list.
- Pmap.Memory.constructor: the template directory and its windows, which env_init makes, are there already.
- env_alloc ignores the result of env_setup_vm; the environment model takes memory for that as available, and has no rollback, as the code has none.
- EnvKernel.System.Create: a panic stands for the use of an undefined environment when env_alloc fails.
- EnvInvariants.KillKeeps: the target of a destroy is runnable, because env_free always unlinks it; `RemoveUnlinkedIff` says what that does to one that is not, at the level of links, which the lists of this module do not have. The same holds of `StepKeeps` and `RunKeeps`.
- EnvCalls.KillOther: where the environment destroyed is not runnable, that the other lists stay is what `RemoveUnlinkedIff` gives the condition for.
- PageInvariants.GainKeeps: fewer than 65535 references, because pp_ref has 16 bits.
- RoundRobin.ZeroRunsOn: the counter is unbounded; in C it would wrap after 2^31 ticks.
- Ipc.ReadIsSent: whether the page of a message can be mapped is a parameter; the mapping is in VmRuns.
- env_runs is an unbounded number, and trap frames, working directories and shell variables are not part of the state.
- CowRefinement.CowRefinesEagerCopy: duppage's permissions are still those of the page when it maps it, as in `StepKeeps`, `StepRefines` and `Isolation`; `DupMap1Iff` says that this is exactly what is needed. Memory for cow_entry and fork is available.
- The pages of fork are those below USTACKTOP as numbers; the two levels of the vpd and vpt windows are those of the memory model.
- PipeClose.StepKeeps: fork and spawn copy the descriptor table at once, about which see PipeFork; other files are opened with one data page, and dup moves one data page.
- PipeIo.Shared.PipeRead: how often _pipe_is_closed says no is part of the state, so that the loop ends; the emptiness test and the closed test are separate, so that bytes may remain when it says closed.
- dup, close and _pipe_is_closed of different environments are interleaved in PipeClose as steps; the methods of FdCalls run undisturbed.
- The file server works on one disk; dirty marks, write-back, file_flush and the contents of data blocks are not modelled, nor is reading past the disk.
- Blocks.MapBlockKeeps: a block that becomes an index block is not still cached with old words; `StaleIndexIff` says that this is needed.
- Paths.CreateOpens: a new directory block is zeroed, and so for `CreateThenRemove`; what holds without that is `CreateSafeIff`.
- A file created keeps the type that its structure had; the request that sets it is outside of file_create.
- write_directory and reading of host files; the builder's File structures are named by place, and names are in Paths.
- ElfLoad.EachOnceIff: p_filesz is at most p_memsz, as chapter 5, "Program Header", of the System V gABI requires; addresses do not wrap, and the permission, the same in all calls, is not shown.
- The scan of format strings in vprintfmt; print_char and print_str.
- LIST_INSERT_AFTER, LIST_INSERT_BEFORE and the other macros that no list of the kernel uses.
- AbsPath.FormatAbspath: the path begins with a slash and its components have fewer than 128 characters, as its callers see to.
- Devices, console, trap entry and exit, the shell, marshalling of file requests, globalVar and current-path calls, string copies between spaces.
