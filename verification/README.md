# ApPa kernel: a verified model

ApPa is a small x86 kernel in C: a physical frame allocator, two-level paging
with one page directory per process, a heap, a round-robin scheduler, tasks in
Ring 0 and Ring 3, an ELF loader, a flat file system (SimpleFS) on a block
device, a shell and a user library. This project models its state-changing core
in Dafny and proves what that code keeps over whole runs.

How the pieces fit together:

- **SimpleFS** (`FsLayout`, `FsSpec`, `FsDirectory`, `FsAccounting`,
  `FsProtocol`, `FsRuns`, `FsFormat`, `FsLives`, `FsCounts`, `FsLaws`, `SimpleFs`). A disk is a
  sequence of 512-byte blocks; superblock and directory entries are decoded from
  bytes. `Abs` maps a disk to an abstract map from names to directories and file
  contents. The class `FileSystem` runs over a block device that may fail any
  write and logs the writes it makes; every call is tied to the writes it may
  issue, and every prefix of those writes (a crash) is covered. `FsFormat` adds
  formatting, `FsLives` whole lives of a disk through mounts, calls and power
  failures, `FsCounts` follows the free-block count, `FsLaws` says in terms of the
  map when a call succeeds.
- **Heap** (`HeapSpec`, `HeapRuns`, `Kmalloc`). The block list that in-band
  headers describe, the list operations, runs of them, and the class `Heap`
  that rewrites headers in an array of words.
- **Frames** (`Bits`, `Pmm`). The bitmap allocator refines a set of used frames.
- **Paging** (`PagingSpec`, `KernelPaging`, `AddressSpace`, `KernelShares`,
  `Spaces`, `SpaceFrames`, `ProcessBuild`, `UserSpaces`, `Paging`). Directories and tables live
  in frames of physical memory. `SysOk` says that every process directory is well
  formed and that no frame belongs to two of them; `Building` says what a
  directory under construction holds and that nothing else was written.
- **Tasks** (`TaskState`, `TaskSpec`, `KernelSteps`, `KernelRuns`,
  `KernelWindows`, `KernelFaults`, `Sweep`, `Tasks`). `WorldOk` accounts for every
  frame in use: the initial ones, and what each live task holds. `KernelSteps`
  joins scheduler, task pool and frames in one state machine. Because
  sched_remove_task enables interrupts, task_reap is many steps there: the
  unlinking, the load and the store of a bitmap word for every free, the zeroing
  of the slot up to the fields that mark it free, and the rest of the zeroing.
  `KernelRuns` follows runs, `KernelWindows` says exactly which spawns break a
  reap they overtake, `KernelFaults` gives the failing runs. The class
  `TaskManager` takes the steps over the pool, the page tables and the queue.
- **Programs** (`ElfSpec`, `ElfImage`, `Elf`, `ElfFile`, `ElfExec`, `Argv`, `Exec`,
  `Launch`). From a typed `exec` line over the file it names to the bytes and
  arguments the new process sees. `ElfFile` writes executables out field by field
  and says what the loader makes of them.
- **Scheduling** (`SchedSpec`, `SchedWaiting`, `Scheduler`). A state machine over
  ticks, yields, creations, exits and the separate steps of reaping, and the
  circular linked list that refines it.
- **Context switches** (`Words`, `Context`, `KernelContexts`). Stacks, saved
  frames, task_switch instruction by instruction, and the runs of the kernel
  state machine as runs of the processor.
- **Text** (`CString`, `NumText`, `PrintfSpec`, `PrintfLaws`, `Stdio`). C strings,
  number conversion, and vsnprintf as a bounded form of an unbounded rendering,
  with laws that say what that rendering is.

## Where a promise fails, and exactly when it holds

- fs_format writes the magic number before it clears the directory. A format cut
  short leaves a disk that mounts consistently exactly when nothing was written
  or the directory blocks not yet cleared are consistent by chance
  (`FormatCrash`, failing disk in `FsFormat.StaleDirectory`).
- After a failed fs_init the file system still takes calls, and the first of them
  that flushes the superblock puts the magic number over whatever directory is
  there. A disk stays consistent through its life exactly when no mount and no
  such call seals an inconsistent directory (`LifeExact`; that safe mounts are
  not enough, `SafeMountsAreNotEnough`; when a call seals well,
  `ConsistentSeals`).
- free_blocks plus used blocks is the data region only as long as no delete or
  write is cut short at the wrong place (`FsCounts.StepExact`, `RunAccounts`; failing
  delete in `DeleteDrifts`). The next complete write repairs it (`WriteRepairs`).
- kfree and kmalloc keep the heap laid out unless the size sum of kmalloc wraps
  (`AllocLayoutExact`, `WrappedRequest`).
- free_page does not protect reserved frames: they stay reserved exactly when
  callers spare them (`FreeReserved`, `FreeZeroThenAlloc`).
- paging_map_page_in drops a page silently when it finds no frame for its table,
  and never frees a page whose entry it overwrites (`SilentFailureLeaks`). So
  task_create_user loses one frame exactly when four frames are free
  (`CreateUser`), and an ELF load loses as many frames as `Losses` counts: one
  for every page mapped over an earlier one, and one when the last free frame
  went to a page without a table.
- elf_validate and load_segments add 32-bit numbers that can wrap: the header
  table (`TableInFile`, `WrappedTable`), the contents of a segment in the file
  (`FileRange`, `WrappedSegment`) and the end of its pages (`PagesAreTouched`,
  `LastPageNotLoaded`).
- Where segments share a page the later one replaces all of it: a byte is the
  file's exactly where no later segment has put another (`FlatImage`, lost code
  in `SharedPage`).
- The array of 64 string addresses is not guarded by the check on the argument
  size (`ManyEmptyArguments`).
- While task_reap frees a frame with interrupts on, a task spawned in the
  keyboard interrupt can take a frame from the bitmap word that is loaded, and
  the store marks it free again (`StoreTakes`, failing run in `LostFrame`). While
  it zeroes a slot, a task can be spawned in it as soon as the two fields
  alloc_tcb tests are zero; the rest of the zeroing cuts the ready list
  (`FinishStep`, `CreatedInTail`, failing run in `CutQueue`), and a kernel task
  keeps the directory of the dead one until then (`KernelSteps.StaleDirectory`). A
  step keeps the accounting exactly when it does none of this
  (`KernelSteps.StepExact`, `KernelRuns.RunExact`), and a run that ends outside of
  both windows survives exactly when no spawn took such a slot or such a frame
  (`RunSurvives`).
- While a task is reaped its control block still names what has been freed. No
  frame is named twice exactly as long as nothing it names is in use again, apart
  from what is still to be freed (`StaleExact`, failing run in `ReusedStack`);
  linked tasks are not affected (`LinkedNeverFreed`).
- vsnprintf stays inside its buffer exactly when the size is at least 1 or
  nothing is printed (`StoresInside`, `SizeZeroStores`), and inside its format
  exactly when no directive is cut short (`ScanExact`, `CutShort`); widths that
  overflow an int are excluded (`WidthOverflows`).

Places where comments and code disagree; the model follows the code:
crt0.c says that a program without arguments finds argc 0 and an empty argv,
while the loader leaves its stack pointer at the top of the page and writes
nothing; switch.asm says that EBX carries the entry point of a new task, while
task_create passes it on the stack; stdio.c says that out_char accepts size 0,
while `size - 1` then wraps; elf.h announces a limit of eight segments that no
code enforces.

## Model

| member | source | states |
|---|---|---|
| FsLayout.EntryRoundTrip | fs/simplefs.c:34-64 | a directory entry written to its 32 bytes and read back is the same entry |
| FsLayout.SuperblockRoundTrip | fs/simplefs.c:24-32 | a superblock written to block 0 and read back is the same superblock |
| FsLayout.EntryBytes | fs/simplefs.h:49-55 | the bytes of a directory entry: name at 0, type at 24, start block at 26, size at 28, little-endian |
| FsLayout.SuperblockBytes | fs/simplefs.h:36-46 | the magic number is the bytes 53 46 50 41 at 0, the block count is at 8 and the free count at 12 |
| FsLayout.EntryWriteEffect | fs/simplefs.c:52-64 | the read-modify-write of a directory block changes one of the 32 entries and no other |
| FsLayout.BlocksExact | fs/simplefs.c:244-244 | the block count of a file covers its bytes exactly when the size sum does not wrap |
| FsSpec.ImageReadsBack | fs/simplefs.c:257-276 | the data blocks written for a file, the last one zero-filled, read back as the file's bytes |
| FsSpec.CrashInDataPhase | fs/simplefs.c:257-276 | a crash among the data writes leaves every name and every content as it was |
| FsSpec.ViewAfterFlip | fs/simplefs.c:278-281 | the directory write gives the target its new bytes and every other name what it had |
| FsProtocol.CrashAtomicity | fs/simplefs.c:234-299 | after any prefix of the writes of fs_write_file a mount shows the target with all old or all new bytes, switching at the directory write; all else is unchanged and only the free count may lag |
| FsAccounting.RecountExact | fs/simplefs.c:283-295 | the recount after a write makes free_blocks plus the blocks of all files the size of the data region, however far it had drifted |
| FsAccounting.UsedBounded | fs/simplefs.c:286-293 | disjoint extents never sum to more than the data region, so the recount cannot wrap |
| FsDirectory.CreateEffect | fs/simplefs.c:207-232 | a create adds one empty entry under a new name and changes no other view |
| FsLaws.CreateExact | fs/simplefs.c:207-222 | a create is possible exactly if the name has 1 to 23 characters, the type is file or directory, the name is new and fewer than 32 names exist |
| FsLaws.CreateSucceeds | fs/simplefs.c:207-232 | with a device that does not fail it succeeds exactly then |
| FsLaws.WriteExact | fs/simplefs.c:234-256 | a write is possible exactly if the name is a file and the data is empty or the free count covers it and that many blocks in a row belong to no file |
| FsLaws.WriteSucceeds | fs/simplefs.c:234-299 | with a device that does not fail it succeeds exactly then |
| FsDirectory.ClearView | fs/simplefs.c:344-377 | clearing a set of directory slots removes exactly their names |
| FsRuns.CallRefines | fs/simplefs.c:207-384 | every call that returns keeps the disk consistent and does to the abstract map what it reports |
| FsRuns.CrashRefines | fs/simplefs.c:207-384 | every call cut short leaves a consistent disk in one of the states its crash allows |
| FsRuns.RunRefines | fs/simplefs.c:207-384 | from a mounted disk, every run of calls, failing writes, crashes and remounts refines the map from names to nodes |
| FsRuns.RunOk | fs/simplefs.c:207-384 | in every state such a run reaches names are unique and terminated and extents are disjoint and in range |
| FsRuns.DeleteExact | fs/simplefs.c:330-384 | deleting a directory removes exactly its name and the names that start with it and a slash |
| FsRuns.DeletePartial | fs/simplefs.c:344-377 | a delete cut short removes only names it was to remove |
| FsFormat.FormatCrash | fs/simplefs.c:160-183 | after k of the three writes of a format the disk mounts consistently exactly when k is 0 or the blocks still to be cleared happen to hold a consistent directory |
| FsFormat.StaleDirectory | fs/simplefs.c:170-180 | a disk on which a format that stops after the superblock leaves an inconsistent directory under the magic number |
| FsLives.DeedExact | fs/simplefs.c:187-384 | a mount, call or power failure, after a failed fs_init too, keeps the disk consistent exactly when it is not such a format and seals no inconsistent directory |
| FsLives.LifeExact | fs/simplefs.c:187-384 | over any sequence of mounts, calls and power failures, with calls after a failed fs_init, the disk is consistent throughout exactly when every deed was safe |
| FsLives.ConsistentSeals | fs/simplefs.c:187-384 | a call on an unmarked disk whose directory is consistent is safe |
| FsLives.SafeMountsAreNotEnough | fs/simplefs.c:187-299 | a disk, a fs_init whose format fails at once, a create and a write, all reported well, that leave an inconsistent directory under the magic number |
| FsLives.LifeRefines | fs/simplefs.c:187-384 | and then every step refines the map from names to nodes, a format giving the empty map |
| FsCounts.StepExact | fs/simplefs.c:207-384 | a create, write or delete, returned or cut short, keeps free_blocks right exactly under a condition on where it stopped and which blocks were cleared |
| FsCounts.RunAccounts | fs/simplefs.c:207-384 | free_blocks is right throughout a run exactly when every step meets that condition |
| FsCounts.CleanKeeps | fs/simplefs.c:207-384 | a call in which no write fails meets it |
| FsCounts.WriteRepairs | fs/simplefs.c:283-296 | a complete write makes the count right however wrong it was |
| FsCounts.DeleteDrifts | fs/simplefs.c:347-381 | a delete whose child could not be cleared counts the child's blocks as free all the same |
| SimpleFs.FileSystem.ReadEntry | fs/simplefs.c:34-50 | returns the entry at an index below 32 and fails on any other |
| SimpleFs.FileSystem.WriteEntry | fs/simplefs.c:52-64 | issues exactly the write that replaces one entry, or none for an index above 31 or when the device fails |
| SimpleFs.FileSystem.FindEntry | fs/simplefs.c:73-84 | finds the slot of a name, or reports that none has it |
| SimpleFs.FileSystem.FindFreeSlot | fs/simplefs.c:90-98 | finds the first free directory slot, or reports that the directory is full |
| SimpleFs.FileSystem.AllocBlocks | fs/simplefs.c:112-155 | the occupancy bitmap and scan find the lowest free run of blocks, and fail exactly when there is none |
| SimpleFs.FileSystem.Format | fs/simplefs.c:160-183 | issues a prefix of the three format writes; all of them leave a consistent, empty, accounted device, fewer a mountable one exactly as FormatCrash says |
| SimpleFs.FileSystem.Init | fs/simplefs.c:187-205 | a disk with the magic number is mounted unchanged, and is valid exactly if it was consistent; any other is formatted, and when that fails the superblock of an empty file system stays in memory and calls are still taken |
| SimpleFs.FileSystem.Create | fs/simplefs.c:207-232 | issues the writes a create may issue, with their result; with a reliable device it succeeds exactly for 1 to 23 characters, type file or directory, a new name and fewer than 32 names |
| SimpleFs.FileSystem.WriteData | fs/simplefs.c:257-276 | writes the chunks in order until done or until a write fails |
| SimpleFs.FileSystem.UpdateFreeCount | fs/simplefs.c:283-296 | sets the recounted free blocks and flushes the superblock, ignoring a failed flush |
| SimpleFs.FileSystem.WriteFile | fs/simplefs.c:234-299 | issues data writes, the directory write and the flush in this order, stopping at a failure; with a reliable device it succeeds exactly if the name is a file and the data is empty or the free count covers it and that many blocks in a row belong to no file |
| SimpleFs.FileSystem.ReadFile | fs/simplefs.c:301-328 | returns the first min(size, max) bytes of the file in the abstract map, or an error for any other name |
| SimpleFs.FileSystem.DeleteChildren | fs/simplefs.c:347-372 | clears exactly the entries below the directory, skipping those whose write fails |
| SimpleFs.FileSystem.Delete | fs/simplefs.c:330-384 | clears the victims, then adjusts and flushes the free count |
| CString.Strlen | klibc/string.c:3-8 | the length up to the first NUL |
| CString.Strcmp | klibc/string.c:10-16 | zero exactly for equal strings, else the difference of the first bytes that differ |
| CString.Strncmp | klibc/string.c:18-27 | zero exactly when the strings agree up to n characters or their end, else the difference of the first bytes that differ |
| CString.Strncpy | klibc/string.c:35-42 | copies up to n characters and pads with NULs |
| HeapSpec.TotalFits | kernel/mem/kmalloc.c:10-18 | the rounded request with its header covers the size exactly when no sum wraps |
| HeapSpec.AllocTiles | kernel/mem/kmalloc.c:46-57 | splitting keeps the headers tiling the heap with aligned sizes of at least 12 |
| HeapSpec.FreeTiles | kernel/mem/kmalloc.c:65-99 | merging keeps the headers tiling the heap |
| HeapSpec.FreeCoalesced | kernel/mem/kmalloc.c:65-99 | after a free no two neighbouring blocks are free |
| HeapRuns.BestIsBest | kernel/mem/kmalloc.c:20-44 | the scan yields the lowest block among the smallest that fit, or none exactly when none fits |
| HeapRuns.PerfectFit | kernel/mem/kmalloc.c:34-37 | stopping at a perfect fit gives the same block as the full scan |
| HeapRuns.FreeUndoesAlloc | kernel/mem/kmalloc.c:20-99 | an immediate kfree restores the block list exactly |
| HeapRuns.CallUndoesCall | kernel/mem/kmalloc.c:10-99 | kfree of what kmalloc returned restores the block list |
| HeapRuns.AllocLive | kernel/mem/kmalloc.c:46-63 | a live block at least as large as requested is added and every other live block stays |
| HeapRuns.AllocTakes | kernel/mem/kmalloc.c:46-60 | the block handed out is less than 24 bytes larger than needed; with 24 to spare it is cut to size and the rest is a free block right behind it |
| HeapRuns.RemainderServes | kernel/mem/kmalloc.c:10-63 | a second request that the remainder covers succeeds |
| HeapRuns.TwoRequests | kernel/mem/kmalloc.c:10-63 | two requests of 100 bytes on a fresh heap yield 0x100008 and 0x100074 |
| HeapRuns.FreeLive | kernel/mem/kmalloc.c:65-99 | exactly the freed block stops being live |
| HeapRuns.AllocLayoutExact | kernel/mem/kmalloc.c:10-57 | for any size the layout survives exactly when no sum wraps or the block is not split |
| HeapRuns.WrappedRequest | kernel/mem/kmalloc.c:10-57 | a request of 2^32 - 8 bytes on a fresh heap leaves a block of size 0 |
| HeapRuns.RunLayout | kernel/mem/kmalloc.c:4-99 | every run of kmalloc and valid kfree keeps the heap tiled and coalesced |
| HeapRuns.LiveDisjoint | kernel/mem/kmalloc.c:4-99 | payloads of different live blocks never overlap |
| HeapRuns.FreeAllInAnyOrder | kernel/mem/kmalloc.c:65-99 | freeing all live blocks in any order leaves the single initial block |
| Kmalloc.Heap.constructor | kernel/mem/kmalloc.c:4-8 | one free block covers the heap |
| Kmalloc.Heap.FindBest | kernel/mem/kmalloc.c:20-44 | the header walk finds the best fit of the block list |
| Kmalloc.Heap.Carve | kernel/mem/kmalloc.c:51-60 | the header writes realise the split and touch no other payload |
| Kmalloc.Heap.Kmalloc | kernel/mem/kmalloc.c:10-63 | takes the best fit, fails exactly when none fits, and writes no live payload; the block behind the pointer has at least size + 8 and less than size + 35 bytes |
| Kmalloc.Heap.Kfree | kernel/mem/kmalloc.c:65-99 | frees and merges both ways on the headers, writing no other live payload |
| Pmm.OneBit | kernel/mem/pmm.c:28-50 | setting or clearing a bit adds or removes one frame of the set |
| Pmm.FrameAllocator.constructor | kernel/mem/pmm.c:118-136 | after pmm_init exactly the reserved regions are used |
| Pmm.FrameAllocator.FirstFreeFrame | kernel/mem/pmm.c:63-80 | the scan that skips full words finds the lowest free frame, or reports that none is left |
| Pmm.FrameAllocator.AllocPage | kernel/mem/pmm.c:143-157 | hands out the lowest free frame, and 0 exactly when all are used; used_frames is the size of the set |
| Pmm.FrameAllocator.FindRun | kernel/mem/pmm.c:172-196 | finds the start of the lowest run of n free frames exactly when there is one |
| Pmm.FrameAllocator.AllocPages | kernel/mem/pmm.c:164-199 | hands out the lowest run of n free frames, and 0 exactly when there is none |
| Pmm.FrameAllocator.FreePage | kernel/mem/pmm.c:205-235 | frees one frame, a reserved one too; misaligned, out-of-range and free addresses change nothing; the allocator stays valid exactly if the frame was not reserved |
| Pmm.RunSafe | kernel/mem/pmm.c:28-235 | in every run from boot no frame in use and no reserved frame is handed out |
| Pmm.UsedUntilFreed | kernel/mem/pmm.c:28-235 | a frame leaves the used set only by a free of its own address |
| Pmm.NoDoubleHandout | kernel/mem/pmm.c:143-235 | two allocations give the same frame only if it was freed between them |
| Pmm.FreeReserved | kernel/mem/pmm.c:205-235 | reserved frames stay used exactly when the freed address is not one of theirs |
| Pmm.FreeZeroThenAlloc | kernel/mem/pmm.c:143-235 | once page 0 is freed the next allocation hands it out, which reads as failure |
| KernelPaging.IdentityTranslation | kernel/mem/paging.c:132-181 | after paging_init an address below 16 MB translates to itself and any other to 0 |
| KernelPaging.MapKernelEffect | kernel/mem/paging.c:194-224 | a kernel mapping changes the walk of exactly one page, and nothing when no table can be had |
| KernelPaging.MapKernelKeeps | kernel/mem/paging.c:194-224 | pd_tables keeps agreeing with the present directory entries and no two share a table |
| KernelPaging.MapTranslation | kernel/mem/paging.c:194-224 | the translation moves for the addresses of one page only |
| KernelPaging.UnmapKernelEffect | kernel/mem/paging.c:259-278 | an unmapping clears exactly one page |
| KernelPaging.UnmapKernelKeeps | kernel/mem/paging.c:259-278 | pd_tables keeps agreeing with the directory |
| Paging.Mmu.Init | kernel/mem/paging.c:132-181 | 0 to 16 MB is identity-mapped, supervisor-only, in five new frames; it fails exactly when fewer are free |
| Paging.Mmu.MapPage | kernel/mem/paging.c:194-224 | performs the kernel mapping, through a writable directory entry, and keeps the kernel tables consistent |
| Paging.Mmu.UnmapPage | kernel/mem/paging.c:259-278 | performs the unmapping and keeps the kernel tables consistent |
| Paging.Mmu.TranslateAddr | kernel/mem/paging.c:285-307 | the walk through pd_tables gives what the hardware walk gives |
| Paging.Mmu.CloneDirectory | kernel/mem/paging.c:379-417 | builds a private copy of table 0 and shared slots 1 to 3 in two new frames, or gives the first one back when only one is free |
| Paging.Mmu.MapPageIn | kernel/mem/paging.c:426-457 | performs the mapping in the given directory, taking a frame for a missing table; `AddressSpace.WriteAccessExact` says what Ring 3 may write then |
| Paging.Mmu.FreeDirectory | kernel/mem/paging.c:471-504 | frees exactly the frames the process owns: private tables, pages above 16 MB, and the directory |
| KernelShares.MapKernelProcesses | kernel/mem/paging.c:194-224 | a kernel mapping keeps every live process directory well formed and all of them disjoint |
| KernelShares.MapKernelShows | kernel/mem/paging.c:194-224 | it shows in a process exactly at its own page, and only if that lies in the shared slots 1 to 3 |
| KernelShares.UnmapKernelProcesses | kernel/mem/paging.c:259-278 | so does an unmapping keep them |
| KernelShares.UnmapKernelShows | kernel/mem/paging.c:259-278 | and it shows exactly at its own page, in slots 1 to 3 |
| AddressSpace.MapInKeeps | kernel/mem/paging.c:426-457 | mapping keeps every process directory well formed and their frames disjoint |
| AddressSpace.OnePageChanges | kernel/mem/paging.c:426-457 | in the directory itself the walk of exactly one page changes |
| AddressSpace.OthersUnchanged | kernel/mem/paging.c:426-457 | no walk of another process changes |
| AddressSpace.KernelUnchanged | kernel/mem/paging.c:426-457 | no walk of the kernel changes |
| AddressSpace.UserAccessExact | kernel/mem/paging.c:433-456 | under the two-level U/S rule Ring 3 reaches the mapped page exactly if it was mapped with PAGE_USER, and every other page as before |
| AddressSpace.WriteAccessExact | kernel/mem/paging.c:426-457 | under the two-level R/W rule Ring 3 may write to the mapped page exactly if it was mapped as a writable user page, and to every other page as before |
| AddressSpace.UserAccessOther | kernel/mem/paging.c:433-456 | no page of another process opens or closes to Ring 3, for reading or for writing |
| Spaces.CloneKeeps | kernel/mem/paging.c:379-417 | a clone joins the directories with all of them well formed and disjoint |
| Spaces.CloneSees | kernel/mem/paging.c:387-413 | a clone sees the kernel range as the kernel does, nothing above it, and opens nothing to Ring 3 |
| Spaces.MapBuilds | kernel/mem/paging.c:432-456 | mapping a new page moves it into the process, with its table if that is new, and pushes out the page that was mapped there |
| Spaces.TearDownRestores | kernel/mem/paging.c:471-504 | tearing a directory down gives back exactly what was built |
| Spaces.SilentFailureLeaks | kernel/mem/paging.c:426-457 | tearing down after a mapping restores the frames in use exactly when the table existed or could be had and the page was not mapped before; else one frame is lost, the new one or the one replaced |
| SpaceFrames.TearDownKeeps | kernel/mem/paging.c:471-504 | all other directories stay well formed and disjoint |
| SpaceFrames.DataKeeps | kernel/exec/elf.c:125-147 | writing the bytes of a data page changes no translation |
| ProcessBuild.PlaceBuilds | kernel/exec/elf.c:119-150 | allocating, filling and mapping a page adds it to the process under construction; it is lost when its table cannot be had, and so is a page it replaces |
| ProcessBuild.PlaceShows | kernel/exec/elf.c:119-150 | the process sees the new page where it was mapped and everything else as before |
| ProcessBuild.TearDown | kernel/exec/elf.c:278-290 | freeing the directory restores the frames in use but for those lost |
| TaskSpec.SpawnKeeps | kernel/task/task.c:202-327 | a spawn keeps every frame in use accounted for |
| TaskSpec.FailKeeps | kernel/task/task.c:202-273 | a failed spawn keeps the accounting, what it lost joining the initial frames |
| TaskSpec.WorkKeeps | kernel/task/task.c:48-60 | a task that stores into its own stack and data pages takes no frame from anyone |
| TaskSpec.RetireKeeps | kernel/task/task.c:153-156 | a task taken out leaves exactly the frames it held, all still in use, to be given back |
| TaskSpec.ReleaseKeeps | kernel/task/task.c:158-171 | freeing some of them, in any order, disturbs no other task |
| TaskSpec.SpawnReapRestores | kernel/task/task.c:150-327 | spawn, exit and reap restore the frames in use exactly when nothing was lost, and the pool in any case |
| KernelSteps.StoredBits | kernel/mem/pmm.c:38-44 | a bitmap word loaded earlier and stored without one bit: every frame of that word is as it was at the load, all others as they are |
| KernelSteps.StepExact | kernel/task/task.c:67-398 | a tick, yield, exit, store, spawn, failed spawn, unlinking, load or store of a free, or half of a zeroing keeps scheduler, pool and frames in agreement, in mid-reap too, exactly when it is harmless |
| KernelSteps.StoreTakes | kernel/mem/pmm.c:38-44 | the store of a bitmap word from which a frame was taken after the load marks that frame free although someone has it |
| KernelSteps.StaleDirectory | kernel/task/task.c:67-119 | a kernel task spawned in a half-zeroed slot of a user task keeps the dead task's directory, and the accounting is gone |
| KernelSteps.FinishStep | kernel/task/task.c:173-175 | the end of the zeroing keeps the accounting exactly when no task has been linked in the slot meanwhile |
| KernelSteps.KernelSpawns | kernel/task/task.c:67-119 | a kernel task can be spawned in mid-reap in any slot the scheduler does not know, and keeps the accounting exactly when it inherits no directory |
| KernelRuns.RunExact | kernel/task/task.c:67-398 | through any interleaving the frames in use are the initial ones, those of live tasks, those a reap has still to free, and those lost, exactly as long as every step is harmless |
| KernelRuns.AllReaped | kernel/task/task.c:150-180 | when every slot is free again after such a run, exactly the initial frames and those lost are in use |
| KernelRuns.LinkedIsIntact | kernel/task/task.c:150-180 | what a linked task holds is in use, not about to be freed, and held by no other linked task |
| KernelRuns.LinkedNeverFreed | kernel/task/task.c:150-180 | over any stretch of such a run a task that stays linked keeps its stack and address space: never freed, never shared, written only by itself |
| KernelRuns.CurrentIsLinked | kernel/task/sched.c:152-217 | the running task is the boot task or a linked one, never the one being reaped |
| KernelRuns.ReapReads | kernel/task/task.c:158-171 | what a reap has still to free is as it was at the unlinking, whatever is spawned meanwhile |
| KernelRuns.ReapedSpaceWhole | kernel/mem/paging.c:471-504 | until its first frame is freed the dead task's directory stays well formed |
| KernelRuns.GivesBackRun | kernel/mem/pmm.c:38-44 | frees with nothing in between are loads and stores of bitmap words, frame by frame |
| KernelRuns.StaleExact | kernel/task/task.c:156-175 | in mid-reap no frame is named by two control blocks exactly if nothing the dead one names is in use but what is still to be freed |
| KernelWindows.SparingStep | kernel/task/task.c:150-180 | a step is harmless and leaves nobody in a half-zeroed slot or a loaded word exactly when nobody was there and it takes neither |
| KernelWindows.RunSurvives | kernel/task/task.c:150-180 | the accounting survives a run that ends outside of both windows exactly when no spawn took a half-zeroed slot or a frame of a loaded bitmap word |
| KernelFaults.LostFrame | kernel/mem/pmm.c:38-44 | a run from boot after which a linked task holds a frame that is marked free |
| KernelFaults.CutQueue | kernel/task/task.c:150-180 | a run from boot after which the ready list is no circle any more |
| KernelFaults.ReusedStack | kernel/task/task.c:156-175 | a run from boot after which the slot being reaped and a linked task name the same stack |
| UserSpaces.PrepareCode | kernel/task/task.c:242-261 | opening one more code page keeps all of them translated to themselves, reachable and writable, and nothing else |
| UserSpaces.PrepareStack | kernel/task/task.c:263-282 | the stack page shows below 0xC0000000 in its own frame, writable, unless it found no table |
| Tasks.TaskManager.AllocTcb | kernel/task/task.c:29-36 | the first slot with id 0 and no kernel stack, or none |
| Tasks.TaskManager.PushKernelFrame | kernel/task/task.c:101-111 | the stack page ends in four zeros, the wrapper, a zero and the entry point |
| Tasks.TaskManager.PushUserFrame | kernel/task/task.c:303-319 | the stack page ends in four zeros, the trampoline and the iret frame |
| Tasks.TaskManager.Create | kernel/task/task.c:67-119 | fills the first free slot but for the fields of user tasks, with four zeros, the wrapper, 0 and the entry point at its stack pointer, takes one frame and links the task before the boot task; keeps the accounting exactly if the slot had no directory left; without a slot or frame it only counts the id and zeroes the slot it had |
| Tasks.TaskManager.BuildUserSpace | kernel/task/task.c:222-282 | the clone, code pages at their own addresses and stack page, open to Ring 3 for reading and writing and nothing else; a failure gives everything back |
| Tasks.TaskManager.CreateUser | kernel/task/task.c:202-327 | succeeds exactly with a slot and four frames free, and then links the task; loses a frame exactly when four are free; Ring 3 reaches and may write exactly the code pages, at their own addresses, and the stack; the first switch pops four zeros and the trampoline, which finds the entry point, 0x1B, 0x202, 0xC0000000 and 0x23 |
| Tasks.TaskManager.CreateUserMapped | kernel/task/task.c:340-398 | fills a slot around a given directory, with the frame that enters Ring 3 at the given entry and stack pointer, and links the task, or leaves all as it was but for zeroing a slot it had |
| Tasks.TaskManager.Exit | kernel/task/task.c:124-134 | marks the running task dead and yields to another one, keeping the accounting |
| Tasks.TaskManager.Retire | kernel/task/task.c:154-156 | unlinks a dead task: the first step of a reap |
| Tasks.TaskManager.FreeStack | kernel/task/task.c:158-159 | frees its kernel stack, whatever came in between |
| Tasks.TaskManager.FreeSpace | kernel/task/task.c:165-171 | frees exactly its address space, whatever came in between |
| Tasks.TaskManager.ClearHead | kernel/task/task.c:173-175 | zeroes the slot to the fields that mark it free |
| Tasks.TaskManager.ClearTail | kernel/task/task.c:173-175 | zeroes the rest; all stays sound exactly when no task was created there meanwhile |
| Tasks.TaskManager.ReapAll | kernel/task/task.c:150-180 | with nothing in between, unlinks exactly the dead tasks, returns exactly their frames, zeroes their slots and leaves no dead task |
| ElfSpec.TableInFile | kernel/exec/elf.c:63-65 | an accepted header table lies in the file exactly when its end does not wrap |
| ElfSpec.WrappedTable | kernel/exec/elf.c:63-65 | 52 bytes that are accepted although their table lies outside the file |
| ElfSpec.FileRange | kernel/exec/elf.c:99-99 | the contents of a segment that passes lie in the file exactly when their end does not wrap |
| ElfSpec.WrappedSegment | kernel/exec/elf.c:99-99 | a segment that passes although its contents lie outside a file of 100 bytes |
| ElfSpec.PagesAreTouched | kernel/exec/elf.c:113-118 | the page loop visits exactly the pages a segment touches if and only if its rounded end is below 4 GB |
| ElfSpec.LastPageNotLoaded | kernel/exec/elf.c:113-118 | a segment in the last page of memory is accepted and not loaded |
| ElfSpec.SegViewLast | kernel/exec/elf.c:89-152 | a page shows the last segment loaded there |
| ElfSpec.LoadedIsFile | kernel/exec/elf.c:128-147 | the bytes copied are the file's, then zeros, for every segment whose pages are loaded |
| ElfSpec.FlatImage | kernel/exec/elf.c:84-155 | the process reads a segment's byte, file contents and then zeros up to p_memsz, exactly where no later segment has put another byte on the page |
| ElfSpec.FlatImageApart | kernel/exec/elf.c:84-155 | with segments on pages of their own that is everywhere |
| ElfSpec.SharedPage | kernel/exec/elf.c:84-155 | a code and a data segment on one page: the code is gone |
| ElfImage.LoadPage | kernel/exec/elf.c:118-151 | one turn of the page loop extends the image by one page and takes the frames counted for it |
| ElfImage.StackShows | kernel/exec/elf.c:284-293 | the stack page shows at its address over whatever a segment had put there, and Ring 3 reaches exactly the pages mapped |
| ElfImage.ProcessRights | kernel/exec/elf.c:105-150 | Ring 3 may write to the stack page and to the pages whose segment has PF_W, and to no other page |
| Elf.CopyPage | kernel/exec/elf.c:125-147 | zeroing and copying the overlap gives the page of the flat image |
| Elf.LoadPages | kernel/exec/elf.c:113-151 | loads the pages of a segment, and fails exactly when a page allocation fails, with the frames lost counted |
| Elf.LoadSegments | kernel/exec/elf.c:84-155 | loads all segments or fails exactly when a check or a page allocation fails, with the frames taken known beforehand; `ElfFile` says what the headers are |
| Elf.AddStack | kernel/exec/elf.c:284-296 | the stack page is mapped and holds the arguments |
| Elf.BuildImage | kernel/exec/elf.c:269-296 | clone, segments and stack, or everything given back but the frames lost, whose number is known beforehand |
| Elf.Load | kernel/exec/elf.c:255-311 | succeeds exactly when a slot and enough frames are free; the process then sees its segments and stack and nothing else, and its first switch enters Ring 3 at e_entry on that stack; success or failure, the frames lost are as many as counted beforehand |
| Elf.SuccessIsComplete | kernel/exec/elf.c:255-311 | a load that can succeed leaves no page out |
| ElfFile.HeadersRead | kernel/exec/elf.h:78-106 | a file header and program headers written field by field in ELF32 order, the unused fields arbitrary, are read back as written |
| ElfFile.HeaderChecks | kernel/exec/elf.c:36-74 | a file written so is accepted exactly with the magic number, class and byte order 1, type 2, machine 3, and entry, table offset and table not zero |
| ElfFile.FindsSegment | kernel/exec/elf.c:84-155 | Ring 3 reads the byte at p_offset + o, or 0 past p_filesz, o bytes into a segment, and may write there exactly with PF_W |
| ElfFile.ProcessReads | kernel/exec/elf.c:84-311 | so it is in every process started from a file written so, PF_W being bit 1 of the word at offset 24, wherever neither the stack nor a later segment has taken the page |
| ElfFile.ApartVisible | kernel/exec/elf.c:84-155 | with segments on pages of their own that is everywhere but on the stack page |
| ElfFile.SegmentsServed | kernel/exec/elf.c:84-155 | given two frames a page, loading fails exactly on a segment that does not pass the checks |
| ElfFile.LoadsExactly | kernel/exec/elf.c:36-311 | given frames enough, a file loads exactly if its header is accepted and every PT_LOAD segment has p_filesz at most p_memsz, contents ending in the file modulo 2^32, and an address from 0x1000000 on |
| ElfExec.Fetch | kernel/exec/elf.c:319-345 | reads the file of that name if it has 52 bytes to 256 KB and the heap has room |
| ElfExec.Exec | kernel/exec/elf.c:315-353 | starts that program as the loader says, or changes nothing; the heap is as before either way |
| Argv.CopyStrings | kernel/exec/elf.c:210-225 | the strings are copied to the top of the page with their virtual addresses |
| Argv.PushTable | kernel/exec/elf.c:230-242 | the pointer table, argv and argc below the strings |
| Argv.ManyEmptyArguments | kernel/exec/elf.c:202-225 | 65 empty arguments pass the size check and do not fit the array of 64 |
| Argv.SetupArgs | kernel/exec/elf.c:185-247 | [ESP] is argc, [ESP+4] is argv, argv[argc] is NULL, each pointer reads its string, ESP is aligned and nothing below it is written; without arguments, or with too many bytes, nothing is written |
| Exec.Tokenize | shell/shell.c:557-573 | splitting in place gives the first sixteen words of the first 255 characters |
| Exec.JoinTokens | shell/shell.c:562-572 | words joined by single spaces come back as they were |
| Exec.TypedWords | shell/shell.c:557-573 | words typed with spaces between them, at most 255 characters, are passed on as typed, up to sixteen |
| Exec.TokenIsWord | shell/shell.c:562-572 | every token is non-empty and has no space |
| Launch.ArgumentsFit | kernel/exec/elf.c:202-208 | the words of a typed line always fit the stack page |
| Launch.StackReads | kernel/exec/elf.c:291-296 | reading the stack page through the new directory gives the bytes the loader wrote |
| Launch.RunCommand | shell/shell.c:545-589 | exec starts the file its first word names; the process receives exactly the first sixteen words of the line, read through its own mapping |
| SchedSpec.PickEligible | kernel/task/sched.c:48-61 | the task picked is ready or running, so never dead, and no eligible task before it is passed over |
| SchedSpec.SwitchKeeps | kernel/task/sched.c:66-99 | a switch keeps one cycle and at most one running task, the current one |
| SchedSpec.StepExact | kernel/task/sched.c:48-217 | a step keeps the cycle through the boot task, its duplicates-free membership and the task states exactly when it does not end the zeroing of a control block in which a task is linked |
| SchedSpec.ExitLeaves | kernel/task/task.c:124-131 | after an exit and its yield another task runs |
| SchedSpec.RunExact | kernel/task/sched.c:48-217 | an interleaving of ticks, yields, creations, exits and reaping steps keeps it throughout exactly when every step does |
| SchedSpec.SparingExact | kernel/task/task.c:150-180 | and does so without leaving a task in a control block that is still being zeroed exactly when no creation takes such a slot |
| SchedSpec.CreatedInTail | kernel/task/task.c:150-180 | a task created in such a slot stays linked whatever happens, until the end of the zeroing leaves no circle |
| SchedWaiting.StepWaits | kernel/task/sched.c:48-99 | no step without additions moves a ready task further away, and each tick brings it closer |
| SchedWaiting.BoundedWaiting | kernel/task/sched.c:161-173 | with preemption on, no additions and no task in a half-zeroed slot a ready task k links away runs within 10 * k ticks |
| Scheduler.Queue.constructor | kernel/task/sched.c:103-119 | a circle of the boot task alone |
| Scheduler.Queue.PickNextReady | kernel/task/sched.c:48-61 | the walk ends, at the first eligible task after the current one |
| Scheduler.Queue.SwitchTo | kernel/task/sched.c:66-81 | performs the switch and leaves the links alone |
| Scheduler.Queue.Yield | kernel/task/sched.c:152-159 | performs the yield step |
| Scheduler.Queue.Schedule | kernel/task/sched.c:161-173 | performs the tick step |
| Scheduler.Queue.AddTask | kernel/task/sched.c:129-150 | links the new task after the tail, keeping one circle headed by the boot task |
| Scheduler.Queue.RemoveTask | kernel/task/sched.c:183-217 | unlinks a dead task, keeping one circle headed by the boot task; the boot task and a task that is not linked change nothing |
| Scheduler.Queue.Exit | kernel/task/task.c:124-128 | performs the exit step |
| Scheduler.Queue.ClearHead | kernel/task/task.c:173-175 | zeroing the state of an unlinked task leaves the list alone |
| Scheduler.Queue.ClearTail | kernel/task/task.c:173-175 | zeroing its link keeps the list a circle exactly when no task was linked in it meanwhile; else no list through the links is a circle |
| Context.Processor.TaskSwitch | kernel/task/switch.asm:20-45 | saves four registers and the stack pointer, restores the other task's and returns into it |
| Context.SwitchResumes | kernel/task/switch.asm:32-45 | the task switched to gets back its registers, stack pointer and place |
| Context.SwitchParks | kernel/task/switch.asm:20-30 | the task switched from leaves its context in its frame |
| Context.SwitchKeeps | kernel/task/switch.asm:20-45 | every other task's frame stays intact |
| Context.CreateKeeps | kernel/task/task.c:76-116 | creating a task on a free page parks it there and leaves every other frame intact |
| Context.Resumes | kernel/task/switch.asm:20-45 | in any run of computations, switches, creations and removals a resumed task finds the context it was suspended with |
| Context.FirstSwitch | kernel/task/task.c:85-116 | in any run the first switch to a task created earlier restores the frame built for it, on the stack page as built |
| Context.FirstSwitchKernel | kernel/task/task.c:101-111 | so a kernel task enters the wrapper with the entry point as its argument |
| Context.FirstSwitchUser | kernel/task/task.c:303-319 | and a user task enters the trampoline over the frame (entry, 0x1B, 0x202, user ESP, 0x23) |
| KernelContexts.BootFollows | kernel/task/sched.c:103-119 | at boot kernel and processor agree if the boot stack is reserved memory |
| KernelContexts.StepFollows | kernel/task/task.c:67-398 | a harmless step of the kernel can be followed on the processor; a spawn finds its stack page outside the stacks of all linked tasks and of the boot task |
| KernelContexts.RunFollows | kernel/task/sched.c:48-217 | a run of harmless steps is a run of switches, creations and removals on the processor |
| KernelContexts.Resumes | kernel/task/switch.asm:20-45 | in any such run of the kernel a task that runs again finds the registers, the stack pointer and the place it was switched out with |
| NumText.DigitsValue | libc/stdio.c:45-63 | the digits evaluate to the number in every base from 2 to 36 |
| NumText.NoLeadingZero | libc/stdio.c:45-63 | the first digit is 0 only for 0 |
| NumText.AtMost32 | libc/stdio.c:45-63 | a 32-bit number has at most 32 digits |
| NumText.Reverse | libc/stdio.c:32-43 | reverses the first len characters in place |
| NumText.Utoa | libc/stdio.c:45-63 | leaves the digits and a NUL in the buffer |
| NumText.Uitoa | klibc/string.c:54-83 | leaves the same digits as utoa for bases 2 to 16 |
| PrintfSpec.ConvertValue | libc/stdio.c:193-253 | numeric conversions, X and p too, evaluate to their argument, signed for d and i |
| PrintfSpec.FieldWidth | libc/stdio.c:285-336 | a field is as wide as its width asks for or its contents need |
| PrintfSpec.FieldContents | libc/stdio.c:297-336 | without its padding a field is sign, precision zeros and payload |
| PrintfSpec.StoresInside | libc/stdio.c:114-119 | the positions stored lie inside the buffer exactly when the size is at least 1 or nothing is put out |
| PrintfSpec.SizeZeroStores | libc/stdio.c:114-119 | with size 0 the first character is stored |
| PrintfSpec.ScanExact | libc/stdio.c:135-184 | the scan stays within the NUL of the format exactly when no directive is cut short |
| PrintfSpec.CutShort | libc/stdio.c:135-184 | the format "%5" is read past its NUL |
| PrintfSpec.WidthOverflows | libc/stdio.c:159-164 | a well-formed format whose width does not fit an int |
| PrintfSpec.LiteralRender | libc/stdio.c:135-141 | a format without directives renders to itself |
| PrintfLaws.RenderInSequence | libc/stdio.c:130-344 | two formats in sequence render one after the other, the second with the arguments after as many as the first has conversions |
| PrintfLaws.ParsesDirective | libc/stdio.c:147-184 | flags, decimal width, precision and l written out are read back as written |
| PrintfLaws.StringDirective | libc/stdio.c:264-273 | %s with width, precision and minus gives the first characters of the string, blanks on the side asked for |
| PrintfLaws.PlainString | libc/stdio.c:264-273 | %s gives the string, and (null) for a null pointer |
| PrintfLaws.PlainChar | libc/stdio.c:256-261 | %c gives the low byte of the argument |
| PrintfLaws.SignedDirective | libc/stdio.c:196-209 | %d and %i with a width give a minus for negative values and the decimal digits, with blanks before, zeros between sign and digits, or blanks behind |
| PrintfLaws.UnsignedDirective | libc/stdio.c:212-253 | %u, %x, %X and %o give the argument in base 10, 16 and 8 without leading zeros, in digits and a to f, or A to F for X |
| PrintfLaws.PointerDirective | libc/stdio.c:275-283 | %p gives 0x and the hexadecimal digits |
| PrintfLaws.PrecisionZeros | libc/stdio.c:297-336 | %d with a precision gives zeros between sign and digits up to that many digits |
| PrintfLaws.OtherDirective | libc/stdio.c:291-294 | any other conversion character comes out behind a % and takes no argument |
| PrintfLaws.PlainPercent | libc/stdio.c:286-288 | %% gives one % |
| PrintfLaws.OneTwo | libc/stdio.c:130-344 | "%d %d" of 1 and 2 is "1 2" |
| Stdio.OutChar | libc/stdio.c:114-119 | a character is stored if there is room and counted in any case |
| Stdio.ParseDirective | libc/stdio.c:147-184 | flags, width, precision and length modifier |
| Stdio.ConvertArg | libc/stdio.c:193-283 | the text of one argument |
| Stdio.OutField | libc/stdio.c:297-336 | puts out a field padded to the larger of its width and its contents |
| Stdio.Vsnprintf | libc/stdio.c:130-344 | returns the length of the unbounded rendering whatever the size, and leaves its first min(n, size - 1) characters and a NUL in the buffer; `PrintfLaws` says what the rendering is |

## Left out

- Kmalloc.Heap.Kmalloc: sizes above 2^32 - 12 are excluded, because the size sum wraps and the heap may be broken; `AllocLayoutExact` states exactly when.
- SimpleFs.FileSystem.WriteFile: data of more than 2^32 - 512 bytes is excluded, because the block count wraps; `BlocksExact` states exactly when.
- Elf.Load: files whose header table or segment contents wrap round and leave the file are excluded, because the loader then reads outside its buffer; `TableInFile` and `FileRange` state exactly when.
- Stdio.Vsnprintf: size 0 with a non-empty rendering, formats cut short inside a directive, and widths, precisions or lengths of 2^31 and more are excluded, because the source then leaves its buffers or overflows; `StoresInside`, `ScanExact` and `WidthOverflows` state when. Missing arguments read as 0.
- Argv.SetupArgs: more than 64 arguments that pass the size check are excluded, because the source's array overflows (`ManyEmptyArguments`); exec passes at most 16.
- Tasks.TaskManager.CreateUser: the claim of a free slot by alloc_tcb is one step; entry functions and library wrappers are linked below 4 MB.
- Scheduler.Queue.RemoveTask: a linked task is removed only when it is dead and the boot task runs, as in task_reap, its only caller; the branch for a circle of one cannot be reached, because the boot task is always linked.
- KernelSteps.Next: a spawn is one step, because shell commands run inside the keyboard interrupt and interrupts stay off until the new task is linked. The zeroing of a slot is cut once, behind kernel_stack: a spawn further on in it finds some of the later fields zero already, and its link is lost all the same.
- Pmm.FrameAllocator.FreePage: used_frames is decremented by a load and a store too, so that a spawn in between makes it drift; it is only shown, never decided on.
- SchedWaiting.BoundedWaiting: starts without a new task in a half-zeroed slot, because the end of that zeroing leaves no list to wait in (`CreatedInTail`).
- FsLives.Possible: after a failed mount, calls with names of 24 characters and more are left out on directories that hold names without a NUL, because the comparison then leaves the entry.
- Stdio.ConvertArg: %d of 0x80000000 negates INT_MIN, which C leaves open; the wrapped result is modelled.
- Null-pointer arguments, and reads of the block device inside its range, which always succeed here.
- Names of tasks, fs_list, kmalloc_status and the other status printers; the bytes of the buffer elf_exec reads into are a value, not words of the heap.
- paging_enable_user_access, the page-fault handler, CR3 loads, invlpg and the TLB, which do not change the tables.
- Drivers, interrupt and segment tables, the system-call dispatcher, boot code, the kernel log and timers, printf's system call.
- itoa and print_int, whose digit loops repeat utoa's.
- What a frame held before it was allocated: a kernel stack page that was a page table reads as zeros below its frame.
