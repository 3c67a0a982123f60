# Vampire OS kernel: verified models

A Dafny project that models the parts of the Vampire OS kernel and its user library whose state is hard to
keep right, and proves what they keep over every run.

- **Address spaces.** `CopyOnWrite` is the machine of leaves, share counts and frames; its main theorem says that
  lazy fork cannot be told from a fork that copies every page. `PageTables` and `Mappings` show that the
  four-level tables are such a flat map. `FramePools` and `ShareTables` are the bitmap allocator and `cow_tab`.
  `VirtualMemory` puts them together in place, with the conservation of frames; `UserMemory` and `BrkMmap` are the
  callers: stores, fork with its rollback, brk, mmap, munmap, mprotect. `Forks` is what a fork needs.
- **Tasks and pipes.** `Tasks`, `Pipes` and `Lifecycle` are the machine of slots, descriptor tables, pipes and
  waiting, with one event per kernel entry and an invariant over every run; `Tables` follows one descriptor table
  through a run, `Streams` the bytes of one pipe. `Schedulers` is the code with its loops and tables; each call is proved to be one event. `Pipelines`
  is the shell's pipeline builder over that machine, with the stages and other tasks moving in any order. `Effects`
  says on tables and rings what each call leaves.
- **The FAT12 volume.** `Fat12` is the packed table with its chains, `Sectors` the bytes a chain holds, `Directories`
  the slots, `Names` the 8.3 and long names, `Spellings` what the bytes of slots spell, `Listings` the names a scan lists, `FileTables` the invariant of a
  directory's files, `Volumes` the calls in place.
- **Algorithms.** `Heaps` (malloc on brk), `Elf` (the loader), `Clock` (the calendar).
- **Failures.** `MemoryFailures` and `VolumeFailures` are programs that drive the code where it goes wrong.

Source that updates tables in place is modelled by classes and methods with the same loops; each is tied by its
contract to a function or predicate on values, and the lemmas about those values carry the properties.

## What the code does not promise

Where a property fails, the condition under which it holds is proved.

- `pmm_mark_region_free` takes frames outside a region whose start lies in the last page of the 64-bit range,
  because aligning it up wraps (`FramePools.TakenIsInside`, with the region `FramePools.TakenOutside`).
- `sched_fd_bind_pipe` checks that the pipe is in use before it closes the entry; if the entry held the pipe's last
  end, it counts an end of a freed pipe (`Pipes.BindPipeKeeps`, with the run `Tables.BindMiscounts`). No caller in the
  source binds an entry twice.
- A pipeline of two or more stages is wired right if and only if the shell has descriptor 0 and, unless there are just
  two stages, descriptor 1 (`Pipelines.WiredIff`, with the run `Pipelines.WrongRun`). Its own table the shell gets back
  in every case (`Pipelines.RunCmds`).
- Truncating to 0 frees the chain without looking at other names: it keeps the directory right if and only if there is
  none (`FileTables.EmptiedOk`, `Volumes.Volume.Truncate`, with the run `VolumeFailures.CutUnderTwin`).
- `fat_flush` writes two copies of the table even on a volume that has one, over its root directory
  (`Sectors.RootSparedIff`, with the volume of `VolumeFailures.FlushOverRoot`).
- `vmm_map_user` does not look at what the page held: a page mapped twice loses a frame or a count
  (`VirtualMemory.Vmm.MapUser`, with the run `MemoryFailures.MapTwice`). Its callers map unmapped pages.
- `fs_create` keeps a name that fits 8.3 in lower case while `find_file` compares with case: a name with capitals is not
  found again under the name given (`Volumes.Volume.Create`, with the run `VolumeFailures.CapitalsLost`).
- `grow` sets `heap_base` before `brk` has granted anything; a refused first growth leaves a heap that has a base and no
  block, so that the next `malloc` reads a header that is not there (`Heaps.Heap.Grow`, `Heaps.Heap.Malloc`, with the
  run `Heaps.RefusedAtFirst`).

## Model

| member | source | states |
|---|---|---|
| `CopyOnWrite.LazyForkRefinesEagerFork` | kernel/vmm.c:667-867 | over every run of map, unmap, protect, write fault, store, fork (also one that gives up half way) and teardown, each space reads what it would read if fork had copied every page at once |
| `CopyOnWrite.SpacesAreIsolated` | kernel/vmm.c:786-867 | whatever other spaces do, a space that does not act itself goes on reading the same bytes |
| `CopyOnWrite.StepCorrect` | kernel/vmm.c:521-867 | one step keeps exact share counts and sole writable mappings, and is the corresponding step of the eager machine |
| `CopyOnWrite.MapPageCorrect` | kernel/vmm.c:476-519 | mapping a frame that is mapped nowhere adds one page and keeps every count exact |
| `CopyOnWrite.UnmapPageCorrect` | kernel/vmm.c:521-572 | removing a page lowers the count of its frame alone; every other page reads the same |
| `CopyOnWrite.ProtectPageCorrect` | kernel/vmm.c:823-855 | the hardware write bit is given only to the sole mapping of a frame, and only the one page's permission changes |
| `CopyOnWrite.SharePageCorrect` | kernel/vmm.c:707-728 | sharing one page is copying it: both leaves lose the write bit, the count is the number of leaves |
| `CopyOnWrite.BreakPageCorrect` | kernel/vmm.c:786-821 | a write fault changes no byte that any space reads, and leaves the page with the only mapping of its frame |
| `CopyOnWrite.PokeByteCorrect` | kernel/vmm.c:857-867 | a store through a writable leaf changes one byte of one page of one space |
| `CopyOnWrite.ForkRangeCorrect` | kernel/vmm.c:667-735 | forking the pages below any bound is copying them |
| `CopyOnWrite.TeardownCorrect` | kernel/vmm.c:586-652 | teardown removes exactly the pages of one space |
| `CopyOnWrite.ForkFailedRestores` | kernel/user.c:1150-1173 | a fork that gave up after any number of pages, torn down again, leaves all contents, frames and effective counts as before |
| `CopyOnWrite.EagerForkCopies` | kernel/vmm.c:667-735 | the fork of the reference machine is a copy, page by page, and leaves every other space alone |
| `CopyOnWrite.MapLeaf` | kernel/vmm.c:511-513 | the word of a mapped page: its frame, with both write bits |
| `CopyOnWrite.ProtectLeaf` | kernel/vmm.c:823-855 | the hardware write bit is set if and only if writing is allowed and no other leaf maps the frame |
| `CopyOnWrite.ShareLeaves` | kernel/vmm.c:707-728 | both words show the same frame and neither has the hardware write bit |
| `CopyOnWrite.BreakLeaf` | kernel/vmm.c:786-821 | a page alone on its frame keeps it, any other moves to the new frame with the same bytes |
| `FramePools.FramePool.constructor` | kernel/pmm.c:93-173 | the free set after boot is exactly the frames taken from usable regions above the bitmap, which ends at the first page boundary past its bytes, and the free count is its size |
| `FramePools.TakenIsInside` | kernel/pmm.c:29-37 | the frames taken from a region are the frames inside it if and only if aligning its start does not wrap 64 bits |
| `FramePools.TakenOutside` | kernel/pmm.c:73-91 | a region in the last page of the address range from which frame 0 is taken |
| `FramePools.UsableEnd` | kernel/pmm.c:115-131 | the highest usable end, and no counted region ends above it |
| `FramePools.FramePool.RegionFree` | kernel/pmm.c:73-91 | adds to the free set exactly the frames of the region below the limit |
| `FramePools.FramePool.MarkUsed` | kernel/pmm.c:39-54 | removes one frame, wherever it is; the free count stays the number of clear bits |
| `FramePools.FramePool.MarkFree` | kernel/pmm.c:56-71 | adds one frame if it is managed; the free count stays the number of clear bits |
| `FramePools.FramePool.AllocFrame` | kernel/pmm.c:175-193 | the lowest free frame from a start on; 0 exactly when there is none |
| `FramePools.FramePool.Alloc` | kernel/pmm.c:195-198 | a free frame, which leaves the free set; 0 exactly when none is free |
| `FramePools.FramePool.AllocAbove` | kernel/pmm.c:200-203 | a free frame not below an address; 0 exactly when there is none |
| `FramePools.FramePool.AllocSpan` | kernel/pmm.c:205-236 | the lowest run of free frames of this length, all of which leave the free set; 0 exactly when there is none |
| `FramePools.FramePool.Release` | kernel/pmm.c:238-244 | adds exactly the frame, unless the address is reserved, unaligned or outside |
| `ShareTables.ShareTable.Refs` | kernel/vmm.c:271-281 | the count of a frame, 1 when the table does not hold it |
| `ShareTables.ShareTable.Forget` | kernel/vmm.c:283-294 | removes the frame's entry and no other |
| `ShareTables.ShareTable.Share` | kernel/vmm.c:297-317 | one mapping more, from two on; it fails exactly when the frame is new and all 256 entries are taken |
| `ShareTables.ShareTable.Drop` | kernel/vmm.c:320-335 | one mapping fewer; true exactly for the last one |
| `ShareTables.ShareTable.Unshare` | kernel/vmm.c:345-360 | one mapping fewer where the other mappings keep the frame |
| `ShareTables.FullMeansMax` | kernel/vmm.c:297-317 | no empty entry if and only if as many frames are counted as there are entries: a frame never has two |
| `PageTables.WalksNeverMeet` | kernel/vmm.c:445-514 | walks for different pages or spaces end in different words, because each table has one path |
| `PageTables.RebuildSplit` | kernel/vmm.c:714-715 | the address rebuilt from the four indices is the address they were taken from |
| `PageTables.SplitRebuild` | kernel/vmm.c:714-715 | taking indices apart again gives the indices |
| `PageTables.SetLeafLookup` | kernel/vmm.c:476-514 | writing a leaf word changes the lookup of its own page and of no other, in any space |
| `PageTables.LinkLookup` | kernel/vmm.c:445-474 | linking an empty table changes no lookup |
| `PageTables.UnlinkLookup` | kernel/vmm.c:586-652 | unlinking an empty table changes no lookup |
| `PageTables.LinkWellFormed` | kernel/vmm.c:445-474 | after linking, each table still has exactly one path |
| `PageTables.UnlinkWellFormed` | kernel/vmm.c:586-652 | after unlinking, each table still has exactly one path |
| `Mappings.SetLeafRefines` | kernel/vmm.c:476-572 | the four-level tables go on showing the flat map from pages to leaves |
| `Mappings.EmptyRootIsBare` | kernel/vmm.c:586-652 | a space whose upper table is zero owns no other table |
| `VirtualMemory.Vmm.EnsureTable` | kernel/vmm.c:445-474 | the next table down, found or made, and no other table; it fails only when that table is missing and no frame is free; other spaces keep all their tables |
| `VirtualMemory.Vmm.MapUserFlags` | kernel/vmm.c:476-514 | one leaf is written if and only if there is a frame for each table the walk lacks; exactly those tables are made, and accounted for |
| `VirtualMemory.Vmm.MapUser` | kernel/vmm.c:516-519 | succeeds if and only if the addresses are aligned and there is a frame for each table the walk lacks; counts and frames are accounted for if and only if that page was not mapped before |
| `MemoryFailures.MapTwice` | kernel/vmm.c:511-513 | from a memory map with one region: two frames mapped at one page, no call fails, and the books are wrong |
| `VirtualMemory.Overmapped` | kernel/vmm.c:511-513 | a leaf written over leaves a frame that nobody has, or a count that is one too high |
| `VirtualMemory.Vmm.UnmapUser` | kernel/vmm.c:521-572 | succeeds exactly for a mapped aligned page, removes it alone, and frees the frame with its last mapping |
| `VirtualMemory.Vmm.FreeLeaf` | kernel/vmm.c:337-342 | the frame is freed exactly when this was its last mapping |
| `VirtualMemory.Vmm.Translate` | kernel/vmm.c:869-917 | succeeds exactly for mapped pages, with the frame of the leaf and the offset of the address |
| `VirtualMemory.Vmm.CowBreak` | kernel/vmm.c:786-821 | succeeds exactly for a page that wants writing and, if shared, when a frame is free; then it is the break step of the flat machine |
| `VirtualMemory.Vmm.ProtectUser` | kernel/vmm.c:823-855 | succeeds exactly for mapped pages and changes one page's permission |
| `VirtualMemory.Vmm.ClonePml4` | kernel/vmm.c:235-259 | a new space without user pages, or nothing when no frame is free |
| `VirtualMemory.Vmm.TableClear` | kernel/vmm.c:574-584 | true exactly for a table of zeros |
| `VirtualMemory.Vmm.TeardownLevel` | kernel/vmm.c:586-652 | the pages below one table are unmapped and its words are zero; other spaces keep everything |
| `VirtualMemory.Vmm.Teardown` | kernel/vmm.c:586-652 | all pages of the space are gone; exactly its lower tables and the frames whose last mapping went are free |
| `VirtualMemory.Vmm.ShareLeaf` | kernel/vmm.c:707-728 | one page shared between parent and child, or, on failure, every leaf as it was, and a table is missing with no frame free or a frame uncounted with the share table full |
| `VirtualMemory.Vmm.CopyUser` | kernel/vmm.c:667-735 | the child shares every page of the parent, if and only if there is a free frame for each table on the walks of its pages and an entry for each of its frames; on failure a prefix of the pages, and nothing else changed |
| `VirtualMemory.Counted` | kernel/vmm.c:445-474 | whatever made tables took exactly one frame for each place that lacked one, so it ran out exactly when there were fewer free frames than such places |
| `Forks.MappedHasWays` | kernel/vmm.c:445-514 | every lower table on the walk of a mapped page is there |
| `Forks.NotPresent` | kernel/vmm.c:445-474 | where a walk stops its space has no table |
| `Forks.ForkRangeKeys` | kernel/vmm.c:707-728 | a fork of any prefix counts exactly the parent's frames in it and maps no other frame |
| `VirtualMemory.Vmm.AllocPage` | kernel/user.c:126-138 | a zeroed frame that nobody else has, or nothing when no frame is free |
| `UserMemory.StoreByte` | kernel/vmm.c:857-867 | a user store with its fault: the byte at that address changes and no other byte of any space; a writable page is refused only without memory |
| `UserMemory.CopyOut` | kernel/user.c:648-684 | byte by byte: the addresses copied to hold the source's bytes, every other address of every space what it held; on failure a prefix, up to a page that is unmapped, not writable, or needs a frame when none is free |
| `UserMemory.UserFork` | kernel/user.c:1135-1174 | succeeds if and only if there is a slot, two frames and one more per table on the walks of the parent's pages, and entries for its frames; then the child has the parent's pages, byte for byte; failure leaves contents, effective counts, tables and the set of free frames as before |
| `BrkMmap.MapRun` | kernel/user.c:895-909 | a run of new pages if and only if there is a frame for each page and each table their walks lack, or everything as before |
| `BrkMmap.UserBrk` | kernel/user.c:864-918 | succeeds if and only if the break is in the heap and a growth fits the free frames, tables included; the pages gained read as zeros, those given up are gone, and every other page is as it was; failure leaves contents and break |
| `BrkMmap.UserMmap` | kernel/user.c:923-1026 | succeeds if and only if the address and length are proper and the range is free and fits the free frames, tables included; then byte x of the range is byte x of the file, or zero behind its end, and every other page is as it was |
| `BrkMmap.UserMunmap` | kernel/user.c:1030-1081 | succeeds exactly for a mapped range outside the heap; its pages are gone and every other page is as it was |
| `BrkMmap.UserMprotect` | kernel/user.c:1085-1132 | succeeds exactly when every page is mapped; the range may be written or not and holds the same bytes, every other page is as it was |
| `Tasks.DropFdKeeps` | kernel/sched.c:241-271 | closing keeps every count exact, wakes every task whose reason goes away, and frees the pipe with its last end |
| `Tasks.OpenFdKeeps` | kernel/sched.c:742-780 | a new open end is counted once and breaks no blocked task's reason |
| `Tasks.ClearFdsKeeps` | kernel/sched.c:273-283 | after exit the table is empty, other tables are untouched, all invariants hold |
| `Tasks.InheritFdsKeeps` | kernel/sched.c:608-636 | the child's table equals the parent's, and every copied end is counted |
| `Tasks.Dup2Keeps` | kernel/sched.c:742-780 | fails exactly for a bad or unused descriptor; otherwise one entry becomes a copy of another |
| `Pipes.MakePipeKeeps` | kernel/sched.c:860-904 | a new pipe with one reader and one writer in the caller's table |
| `Pipes.PipeUnusedKeeps` | kernel/sched.c:911-922 | freeing a pipe that was never bound keeps all invariants |
| `Pipes.BindPipeKeeps` | kernel/sched.c:924-960 | binding keeps the counts if and only if the entry did not hold the last end of the same pipe |
| `Tables.BindMiscounts` | kernel/sched.c:924-960 | a run from boot after which binding once more to the same entry breaks the counts |
| `Pipes.WrittenRing` | kernel/sched.c:1029-1070 | bytes join the end of the queue, for any position and wrap of the ring |
| `Pipes.ConsumedRing` | kernel/sched.c:989-1027 | bytes leave the front of the queue, for any position and wrap of the ring |
| `Pipes.ReadPipeKeeps` | kernel/sched.c:989-1027 | a read, also one that blocks, keeps counts, reasons and the queue law |
| `Pipes.WritePipeKeeps` | kernel/sched.c:1029-1070 | a write, also one that blocks, keeps counts, reasons and the queue law |
| `Lifecycle.ForkKeeps` | kernel/sched.c:638-703 | the child has the parent's descriptors and parent slot; no other slot changes |
| `Lifecycle.KillKeeps` | kernel/sched.c:1586-1610 | death closes everything, wakes the parent, and leaves no waiter with a dead child |
| `Lifecycle.WaitForKeeps` | kernel/sched.c:1538-1584 | wait collects, refuses or blocks, and a waiter always has a live child to wait for |
| `Lifecycle.BindFileKeeps` | kernel/sched.c:962-987 | binding a file closes what the entry held and keeps all invariants |
| `Lifecycle.ExecedKeeps` | kernel/sched.c:1780-1823 | a new program in the same slot keeps its descriptors and all invariants |
| `Lifecycle.StepKeeps` | kernel/sched.c:186-1823 | each of these kernel entries keeps all invariants: spawn, fork, open, close, dup2, pipe, bind, exec, read, write, wait, kill, sleep and wake |
| `Lifecycle.BlockedForAReason` | kernel/sched.c:1072-1099 | in every reachable state a task blocked on a pipe has a pipe in use that is empty with a writer left, or full with a reader left |
| `Lifecycle.PipesAccountedFor` | kernel/sched.c:186-283 | in every reachable state the counts are the numbers of open ends, a bound pipe is in use exactly as long as it has one, and bytes read plus bytes held are the bytes written |
| `Lifecycle.WaitLosesNothing` | kernel/sched.c:429-491 | over every run from boot no death is handed out twice, each with its own code, an uncollected one keeps its slot and code, and a waiting task has a live matching child and no dead one |
| `Lifecycle.StepLog` | kernel/sched.c:429-491 | each event adds to the log exactly the code it hands out, the result of a wait or of the death that ends one |
| `Lifecycle.RunLog` | kernel/sched.c:429-491 | the log of a run is the sequence of codes handed out on the way |
| `Streams.FirstInFirstOut` | kernel/sched.c:989-1070 | over every run from boot, as long as a pipe is in use: all that reads returned from it, followed by what it holds, is all that writes to it accepted |
| `Streams.StepTraffic` | kernel/sched.c:989-1070 | each event adds to what a pipe carried exactly the bytes it returns or accepts |
| `Lifecycle.FirstZombie` | kernel/sched.c:451-470 | the lowest dead child that matches |
| `Effects.ReadPipeDoes` | kernel/sched.c:989-1027 | on the ring: as many bytes as asked for and held, from the front, the others staying in order; waiting, 0 or -1 exactly for an empty ring with a writer, one without, and no reading end |
| `Effects.WritePipeDoes` | kernel/sched.c:1029-1070 | on the ring: as many of the first bytes of the buffer as there is room for, behind what is held; waiting exactly on a full ring with a reader, -1 exactly without a reader or a writing end |
| `Effects.WaitForDoes` | kernel/sched.c:1538-1584 | on the task table: the code of the lowest dead child asked for, now collected; waiting if and only if there is such a child and none is dead; -1 if and only if there is none |
| `Effects.DropFdCloses` | kernel/sched.c:241-271 | on tables and pipes: the entry is empty, its pipe has one end fewer and is free exactly without any, whoever waits for it is ready |
| `Effects.KillKills` | kernel/sched.c:1586-1610 | the task is dead with its code and no descriptor; a parent that waits for it is ready with the code; nobody else changes but by waking |
| `Effects.SpawnSpawns` | kernel/sched.c:509-593 | a ready task without a parent, with the console on 0, 1 and 2, and nothing else changed |
| `Effects.ForkForks` | kernel/sched.c:638-703 | a ready child with the parent's descriptors, and no other slot changed |
| `Effects.MakePipeDoes` | kernel/sched.c:860-904 | the two entries are the ends of an empty pipe with one reader and one writer, and nothing else changed |
| `Schedulers.Scheduler.PickNext` | kernel/sched.c:154-166 | the first ready slot behind the given one, going round, -1 exactly when none is ready; every other ready slot comes strictly nearer |
| `Schedulers.Scheduler.WakePipeWaiters` | kernel/sched.c:174-184 | exactly the tasks blocked on this pipe become ready |
| `Schedulers.Scheduler.DropEntry` | kernel/sched.c:241-271 | the table update in place is the closing step of the machine |
| `Schedulers.Scheduler.InheritEntries` | kernel/sched.c:608-636 | the copying loop is the inheriting step of the machine |
| `Schedulers.Scheduler.OpenFile` | kernel/sched.c:705-725 | the lowest unused descriptor, or -1 exactly when all are used |
| `Schedulers.Scheduler.CloseEntry` | kernel/sched.c:727-740 | succeeds exactly for an open descriptor; the entry is empty, the pipe loses an end, its waiters are ready |
| `Schedulers.Scheduler.Dup2Entry` | kernel/sched.c:742-780 | succeeds exactly for an open and a proper descriptor, and makes one entry a copy of the other; no other table changes |
| `Schedulers.Scheduler.AllocPipe` | kernel/sched.c:203-239 | a pipe not in use, or -1 exactly without a slot or memory |
| `Schedulers.Scheduler.PipeCall` | kernel/sched.c:860-904 | is the pipe step of the machine, or fails, exactly without two descriptors, a pipe or memory, with nothing changed |
| `Schedulers.Scheduler.FreeUnbound` | kernel/sched.c:911-922 | is the step that frees a pipe nobody bound, and changes nothing for any other number |
| `Schedulers.Scheduler.BindEntry` | kernel/sched.c:924-960 | succeeds exactly for a live task, a descriptor and a pipe in use; the books are kept if and only if the entry was not the last end of that pipe |
| `Schedulers.Scheduler.BindFileEntry` | kernel/sched.c:962-987 | succeeds exactly for a live task, a descriptor and a path, and is the binding step of the machine |
| `Schedulers.Scheduler.PipeRead` | kernel/sched.c:989-1027 | the front of the ring, as many bytes as asked for and held, end of file, refusal, or the demand to block, each under its condition on the ring |
| `Schedulers.Scheduler.PipeWrite` | kernel/sched.c:1029-1070 | the first bytes of the buffer, as many as there is room for, behind what is held; refusal, or the demand to block, each under its condition on the ring |
| `Schedulers.Scheduler.SysRead` | kernel/user.c:1336-1352 | as many bytes as asked for, at most 4096, and held, from the front of the ring; 0, -1 or blocking each under its condition on the ring; after blocking another ready task runs, or the kernel idles exactly when none is ready; with a signal pending nothing changes instead of blocking |
| `Schedulers.Scheduler.SysWrite` | kernel/user.c:1209-1226 | the first bytes of the buffer, as many as there is room for, behind what the ring holds; -1 or blocking each under its condition on the ring; after blocking another ready task runs, or the kernel idles exactly when none is ready; with a signal pending nothing changes instead of blocking |
| `Schedulers.Scheduler.FindZombie` | kernel/sched.c:451-470 | finds the lowest dead child that matches, or -1 |
| `Schedulers.Scheduler.FindChild` | kernel/sched.c:472-485 | true exactly when there is an uncollected child that matches |
| `Schedulers.Scheduler.Wait` | kernel/sched.c:1538-1584 | the code of the lowest dead child asked for, which is collected; the caller waits if and only if it has such a child and none is dead; -1 with nothing changed if and only if it has none; with a signal pending nothing happens |
| `Schedulers.Scheduler.KillTask` | kernel/sched.c:1586-1610 | the task is dead with the code given and has no descriptor, a waiting parent gets the code; other indices change nothing |
| `Schedulers.Scheduler.Exit` | kernel/sched.c:1825-1848 | the caller's death with the low eight bits of the code; it halts exactly when no task is ready |
| `Schedulers.Scheduler.TakeSlot` | kernel/sched.c:522-541 | the first slot whose code nobody is owed, or -1 exactly when there is none |
| `Schedulers.Scheduler.BaseBusy` | kernel/sched.c:493-507 | true exactly for a zero argument or when a live slot has this root and base |
| `Schedulers.Scheduler.AddUser` | kernel/sched.c:509-593 | is the spawn step of the machine in the first reusable slot, or fails, exactly for a zero argument, the boot table, a busy base or without a slot, with nothing changed |
| `Schedulers.Scheduler.ForkCurrent` | kernel/sched.c:638-703 | is the fork step of the machine in the first reusable slot, with the parent's base, or fails, exactly for a zero argument, the boot table, the parent's own table or without a slot |
| `Schedulers.TakeBytes` | kernel/sched.c:1019-1024 | the copy loop hands out the front of the queue |
| `Schedulers.PutBytes` | kernel/sched.c:1062-1067 | the copy loop appends to the queue |
| `Pipelines.RunCmds` | user/sh.c:249-304 | on every return path the shell's table is what it was, whatever other tasks and the stages do in between; while the others leave the pipes alone every stage stands where its own calls put it; it fails only when a pipe or a fork cannot be served |
| `Pipelines.WiredIff` | user/sh.c:249-304 | a finished pipeline is wired right if and only if it has at most one stage, or the shell had descriptor 0 and, unless there are two stages, 1 |
| `Pipelines.WiredRight` | user/sh.c:249-304 | stage m alone writes pipe m, on descriptor 1, and stage m+1 alone reads it, on descriptor 0 |
| `Pipelines.WiredWrong` | user/sh.c:249-304 | without descriptor 0 pipe 0 has two readers, without 1 the second stage of three does not write pipe 1 |
| `Pipelines.WrongRun` | user/sh.c:249-304 | a run from boot in which a shell without standard input builds two stages that both read pipe 0 |
| `Pipelines.WorksOn` | user/sh.c:249-304 | a pipeline wired right stays so over any run of its stages that forks none of them, as long as the pipe is in use: only stage m writes pipe m and only stage m+1 reads it, and after stage m has exited nobody writes it |
| `Tables.EofAfterExit` | kernel/sched.c:989-1027 | once the only writer has exited, in every later state of every run that binds no new writer, a reader never blocks, and an empty pipe reads as end of file |
| `Tables.NoWriterStays` | kernel/sched.c:241-283 | a pipe without a writer gets none again on any run that binds none |
| `Tables.StepWithout` | kernel/sched.c:608-780 | a task without an end of a pipe gets one only by binding, fork or the pipe call that makes it |
| `Tables.StepTable` | kernel/sched.c:509-1610 | each event changes the descriptor table of the slot it acts on as that slot's own call says, and no other table |
| `Pipelines.PlumbedTable` | user/sh.c:194-223 | after its six calls a stage has the shell's table with its ends on 0 and 1 and no other pipe end |
| `Pipelines.PlumbedWithoutOutput` | user/sh.c:194-223 | so has the first or last of two stages of a shell without descriptor 1 |
| `Pipelines.LosesOutput` | user/sh.c:194-223 | a stage between two pipes that read from descriptor 1 ends without an output |
| `Pipelines.KeepsOwnInput` | user/sh.c:194-223 | a first stage whose pipe came on descriptor 0 keeps the reading end of its own pipe |
| `Pipelines.HoldsInput` | user/sh.c:194-223 | from its first call to its last a stage holds its input |
| `Fat12.PutEnt` | kernel/fs.c:403-435 | a packed write changes its own 12-bit entry and no other |
| `Fat12.EntBytes` | kernel/fs.c:403-418 | three bytes hold two entries, the middle one a digit of each; outside the table an entry is an end mark |
| `Fat12.Fat.Set` | kernel/fs.c:420-435 | the update in place of the two bytes is that write |
| `Fat12.Fat.Alloc` | kernel/fs.c:511-524 | the last free cluster, marked as an end; 0 exactly when none is free |
| `Fat12.Fat.FreeChain` | kernel/fs.c:897-907 | exactly the clusters of the chain become free; every other chain stays |
| `Fat12.Fat.Resize` | kernel/fs.c:941-975 | succeeds exactly when enough clusters are free; the chain has the wanted length and the old beginning, exactly the cut tail is freed, every other entry stays; failure leaves a longer valid chain |
| `Fat12.ExtendChain` | kernel/fs.c:941-975 | one more cluster keeps the chains disjoint, acyclic and ended |
| `Fat12.CutChain` | kernel/fs.c:968-974 | cutting keeps the chains disjoint, acyclic and ended, and frees exactly the tail |
| `Fat12.WalkIsChain` | kernel/fs.c:951-955 | the walking loops visit exactly the chain |
| `Directories.FindRun` | kernel/fs.c:621-648 | the first long enough run of free slots; -1 exactly when there is none |
| `Directories.PlacedEnd` | kernel/fs.c:621-648 | filling that run never leaves a slot in use behind an end marker |
| `Directories.Wipe` | kernel/fs.c:722-735 | erases the slot and the long name in front of it |
| `Directories.WipeNames` | kernel/fs.c:722-735 | wiping removes this name and no other, and makes no end marker |
| `Directories.WipeIsWiped` | kernel/fs.c:722-735 | exactly the slot and the unbroken run of long-name slots before it get the mark of an erased one in their first byte |
| `Directories.LiveIff` | kernel/fs.c:925-934 | which first bytes and attribute bits make a slot the name of a file |
| `Directories.OtherLinks` | kernel/fs.c:911-939 | the number of other names of the cluster in the directory |
| `Sectors.StoredContents` | kernel/fs.c:977-1007 | what was stored is what the chain holds |
| `Sectors.StoredLaidOut` | kernel/fs.c:977-1007 | byte x of a file is byte x % 512 of the sector of its cluster x / 512, then zeros; every other sector of the disk is as it was |
| `Sectors.ContentsRead` | kernel/fs.c:1207-1230 | the bytes a chain holds are read from those places |
| `Sectors.ReadFromIs` | kernel/fs.c:500-509 | a copy of the table has 512 of its bytes in each sector, in order |
| `Sectors.StoredApart` | kernel/fs.c:977-1007 | a chain apart from the one written holds what it held |
| `Sectors.SharedContents` | kernel/fs.c:1207-1230 | a chain cut or extended holds the same bytes in the part it shares |
| `Sectors.RootSparedIff` | kernel/fs.c:500-509 | writing two copies of the table spares the root directory's sector if and only if the volume has two copies or more, or the sector held those bytes already |
| `VolumeFailures.FlushOverRoot` | kernel/fs.c:500-509 | a valid volume with one copy whose flush changes the root directory's sector |
| `FileTables.LiveIsAllocated` | kernel/fs.c:1664-1704 | in every state the calls reach, no name's first cluster is free |
| `FileTables.RemovedOk` | kernel/fs.c:1664-1704 | removing a name keeps every other name on an allocated chain |
| `FileTables.RemovedOthers` | kernel/fs.c:1664-1704 | removing a name changes no other file's bytes, nor the bytes under the file's other names |
| `FileTables.EmptiedOk` | kernel/fs.c:1621-1632 | cutting a file to nothing keeps every name on an allocated chain if and only if no other name shares its cluster |
| `VolumeFailures.CutUnderTwin` | kernel/fs.c:1593-1662 | on a valid volume a file is made, written, linked and cut to nothing, no call fails, and the other name is left broken |
| `FileTables.CommittedRest` | kernel/fs.c:1555-1570 | storing a file changes no sector of any other chain and no other slot |
| `FileTables.PlacedNames` | kernel/fs.c:1842-1846 | a new slot gives its cluster one more name and no other cluster a new one |
| `FileTables.ListedIff` | kernel/fs.c:1252-1300 | which first bytes, attribute bits and sizes a scan lists |
| `Volumes.Volume.Flush` | kernel/fs.c:500-509 | a mount reads the table in memory back from either copy; no other sector changes, and so no chain, slot or file |
| `Volumes.Volume.StoreChain` | kernel/fs.c:977-1007 | fails exactly when the chain is too short; the bytes lie in the sectors of the chain's clusters, followed by zeros, and no other sector changes |
| `Volumes.Volume.LoadFile` | kernel/fs.c:1207-1230 | fails exactly when the chain is too short; otherwise the bytes of the sectors of its clusters |
| `Volumes.Volume.Lookup` | kernel/fs.c:1463-1506 | succeeds exactly for a file that fits a page and its chain, and returns its bytes |
| `Volumes.Volume.Write` | kernel/fs.c:1533-1577 | succeeds exactly when the clusters suffice; then the file holds exactly the new bytes, its slot names its chain and length and the table is on the disk, else it holds the old bytes; every other chain of the volume keeps its clusters and sectors, every other slot and entry stays |
| `Volumes.Volume.Truncate` | kernel/fs.c:1593-1662 | the old bytes cut or padded with zeros, so that cut bytes never reappear; every other chain of the volume keeps its clusters and sectors, every other slot and entry stays; the directory breaks if and only if a file that is not empty is cut to nothing under one of several names |
| `Volumes.Volume.Remove` | kernel/fs.c:1664-1704 | the chain is freed exactly when the last name goes, and exactly its clusters; the slot and its long name are erased, the last entry takes the place of the removed one, nothing else changes |
| `Volumes.Volume.GrowDir` | kernel/fs.c:650-698 | sixteen zeroed slots more, exactly below eight sectors and with a free cluster; every chain but the directory's own, every sector, slot and file stays |
| `Volumes.Volume.DirSlots` | kernel/fs.c:700-715 | the first free run, in a directory that grows only if it has none, or -1 exactly when there is none and it cannot grow; every chain but the directory's own stays |
| `Volumes.Volume.Create` | kernel/fs.c:1011-1100 | an empty file with one cluster that was free, its 8.3 name or long-name slots with an unused alias in slots that were free, listed by a later scan under the name its entry has; or every file as before, exactly without entry, memory, usable name, cluster or slot; every other slot and chain stays |
| `Volumes.Volume.Enter` | kernel/fs.c:1035-1100 | the same for given slots: the cluster is given back when there is no room for them, which is exactly when the call fails past its other checks |
| `Volumes.Volume.Find` | kernel/fs.c:92-105 | the first entry with this name, -1 exactly when there is none |
| `VolumeFailures.CapitalsLost` | kernel/fs.c:1011-1100 | on an empty volume the file `A` is created and then not found |
| `FileTables.CreatedListed` | kernel/fs.c:1249-1290 | a scan lists a created file under its long name, or its 8.3 name in lower case |
| `Listings.LongListed` | kernel/fs.c:1249-1290 | the slots made for a long name are listed as it, whatever surrounds them |
| `Listings.ShortListed` | kernel/fs.c:1102-1132 | an 8.3 slot is listed in lower case unless a long-name slot is right before it |
| `Listings.AddedNoOrphans` | kernel/fs.c:1061-1081 | adding a file leaves no long-name slot without a slot in use behind it |
| `FileTables.KeptNoOrphans` | kernel/fs.c:1555-1570 | nor does a change of a file's cluster and size |
| `Listings.RemovedNoOrphans` | kernel/fs.c:722-735 | nor does wiping one |
| `Volumes.Volume.Scan` | kernel/fs.c:1232-1315 | every entry has the name the bytes of its slots spell and agrees with its slot, readable files are cached, and with room and memory every listed slot has an entry; it fails only without memory |
| `Volumes.Volume.Link` | kernel/fs.c:1807-1851 | one slot more, a copy of the file's under the new name: its cluster has one name more, no other cluster a new one, every other slot and chain stays; it is refused exactly for a directory, a name in use or not 8.3, or without entry or slot, and then nothing is linked; when the scan behind it runs out of memory the call fails and the link stays |
| `Names.To83` | kernel/fs.c:450-498 | accepts exactly the names of one to eight letters and digits with an optional extension of one to three |
| `Names.ShortRoundTrip` | kernel/fs.c:1102-1132 | reading an 8.3 name back gives the name in lower case |
| `Names.SameShortIff` | kernel/fs.c:450-498 | two names have the same 8.3 bytes if and only if they differ in case only |
| `Names.LfnOk` | kernel/fs.c:737-759 | a proper long name is one to fifteen letters, digits and dots, and nothing else is |
| `Names.LfnStore` | kernel/fs.c:868-895 | the 32 bytes of a long-name slot, and no other byte |
| `Names.LongRoundTrip` | kernel/fs.c:1135-1205 | every storable long name reads back exactly, with a matching checksum |
| `Names.ListedBack` | kernel/fs.c:1249-1290 | the directory scan lists a long name as it was given, whatever slots are around it |
| `Spellings.ListedIsSpelled` | kernel/fs.c:1249-1290 | on the bytes of the slots: a scan gives the long name if and only if the run before the slot has its numbers, the checksum, the attribute and readable characters, and otherwise the 8.3 name in lower case |
| `Spellings.BuildIff` | kernel/fs.c:1170-1205 | a run of slots gives a name if and only if its numbers, its checksums and its characters are right |
| `Spellings.ChecksumIs` | kernel/fs.c:1135-1145 | the checksum is the sum of the bytes, rotated right by one bit before each |
| `Spellings.FatNameIs` | kernel/fs.c:1102-1132 | base and extension up to their first spaces, in lower case, with a dot if there is an extension |
| `Spellings.ShortIff` | kernel/fs.c:450-498 | which names fit 8.3, and their eleven bytes: upper case, filled up with spaces |
| `Spellings.LongEntIs` | kernel/fs.c:868-895 | which byte of a long-name slot is which character, the zero behind the name and the filling |
| `Spellings.SlotsAre` | kernel/fs.c:1061-1074 | the slots of a long name are numbered downwards, the first one marked, thirteen characters each |
| `Spellings.LettersOneMore` | kernel/fs.c:791-866 | the letters and digits of a name are gathered from the left until there are enough |
| `Spellings.AliasIs` | kernel/fs.c:791-866 | the eleven bytes of an alias: at most six letters, a tilde and the number, three letters of the extension |
| `Names.CountsIff` | kernel/fs.c:777-779 | which first bytes and attribute bits make an 8.3 name count as used |
| `Names.AliasUsed` | kernel/fs.c:761-789 | true exactly when a slot in use has this 8.3 name |
| `Names.MakeAlias` | kernel/fs.c:791-866 | the lowest numbered alias no slot in use has; none exactly without letters or when all nine are taken |
| `Names.AliasShape` | kernel/fs.c:791-866 | an alias is a proper 8.3 name, and different numbers give different ones |
| `Heaps.Heap.NextBlock` | user/malloc.c:27-36 | the block behind, or null for the last |
| `Heaps.Heap.Grow` | user/malloc.c:38-94 | the last block takes the new bytes if it is free, else they are a new free block; a refused first growth leaves a heap without a block |
| `Heaps.Heap.Malloc` | user/malloc.c:96-139 | the first block that fits, in the heap grown exactly when none did and at most once: a new aligned payload large enough; no other payload changes; null exactly for 0 or when nothing fits and brk refuses; blocks tile the heap unless the very first growth was refused |
| `Heaps.RefusedAtFirst` | user/malloc.c:53-66 | a new heap whose first growth is refused ends with a base and no header |
| `Heaps.Heap.Free` | user/malloc.c:141-165 | exactly this block is no longer in use and joins a free block behind it; no other payload changes; foreign and free pointers are ignored |
| `Heaps.Heap.Store` | user/malloc.c:96-139 | a user's store into its own payload never damages a header |
| `Heaps.TilesApart` | user/malloc.c:27-36 | blocks of a tiling are disjoint and in order |
| `Heaps.TakenLive` | user/malloc.c:119-131 | exactly one more block is in use, and it was free |
| `Heaps.TakenTiles` | user/malloc.c:119-131 | splitting or taking a block keeps the tiling |
| `Heaps.TakenSplits` | user/malloc.c:119-131 | a block is split if and only if a header and 16 bytes are left over; no other block changes |
| `Heaps.GrownTiles` | user/malloc.c:68-93 | growth keeps the tiling and the blocks in use, and the last block is free and large enough |
| `Heaps.GrownJoins` | user/malloc.c:68-93 | new bytes join the last block if and only if it is free; no other block changes |
| `Heaps.ExtraIs` | user/malloc.c:47-51 | a growth asks for whole pages, at least one, and less than one more than needed |
| `Heaps.ReleasedTiles` | user/malloc.c:155-164 | joining keeps the tiling |
| `Heaps.ReleasedJoins` | user/malloc.c:155-164 | a freed block joins the one behind it if and only if that is free; no other block changes |
| `Heaps.ReleasedLive` | user/malloc.c:155-164 | exactly one block fewer is in use |
| `Elf.Parse` | kernel/elf.c:45-132 | accepts exactly the files whose segments are in bounds and pairwise disjoint with the entry in one, and hands out a sorted permutation of them |
| `Elf.AcceptedIff` | kernel/elf.c:45-132 | what is accepted, header by header: each loadable one in bounds, no two overlapping, the entry in one |
| `Elf.HeaderOkIff` | kernel/elf.c:59-75 | which bytes make a file one for this machine, and where its counts are |
| `Elf.HeaderIs` | kernel/elf.c:31-40 | which bytes of a program header are which field, the lowest first |
| `Elf.Collect` | kernel/elf.c:77-99 | the loadable headers in file order, refused exactly when one is unsound; the wrapping sum is checked exactly |
| `Elf.SortByAddress` | kernel/elf.c:104-113 | sorted and a permutation |
| `Elf.NoOverlap` | kernel/elf.c:114-118 | looking at neighbours finds every overlap of a sorted list |
| `Elf.EntryInside` | kernel/elf.c:120-128 | true exactly when a segment covers the entry |
| `Elf.Load` | kernel/elf.c:148-188 | succeeds exactly for an accepted file that begins at the address and fits; then each segment's bytes are in their place, followed by zeros, and what no segment covers is zero |
| `Elf.ImageIsLoaded` | kernel/elf.c:170-185 | the image has every segment in its place and zeros elsewhere |
| `Elf.ImageByteIs` | kernel/elf.c:170-185 | each byte is that of the one segment covering it, or zero |
| `Elf.OrderDoesNotMatter` | kernel/elf.c:77-113 | the same segments in any header order give the same image |
| `Clock.AddSeconds` | kernel/rtc.c:65-90 | terminates in the valid time exactly that many seconds later |
| `Clock.YearStart` | kernel/rtc.c:51-63 | the month lengths add up to the Gregorian day number of every year |
| `Clock.MonthTable` | kernel/rtc.c:51-63 | the lengths of the twelve months |
| `Clock.AddedTwice` | kernel/rtc.c:65-90 | adding twice is adding the sum |
| `Clock.OrderIsSeconds` | kernel/rtc.c:65-90 | calendar order is the order of seconds, and each moment has one valid time |
| `Clock.Format` | kernel/rtc.c:171-205 | the buffer holds a string that reads as the valid time that many seconds after the snapshot |
| `Clock.ShownSays` | kernel/rtc.c:188-204 | the digits of the string, read as decimal numbers, are the fields of the time, with the marks between them |
| `Clock.ShownOrder` | kernel/rtc.c:188-204 | until the year 10000 the strings sort as the times do |
| `Clock.NeverBackwards` | kernel/rtc.c:171-205 | later ticks never show an earlier string |

## Left out

Of the address spaces:
- Flushing translations, the direct map, the identity map, device mappings and the boot table stand outside; a root
  register of 0 is not modelled.
- Addresses in the upper half and non-canonical ones; user tables hold no large pages, which the invariant shows, so
  the branches that test for them are not written out.
- Table words are records of the flag bits the code looks at; shifts and masks are divisions and remainders.
- The four nested loops of teardown and fork are one loop per level that calls itself for the level below.
- UserMemory.UserFork: registers, names and working directories of the child are not modelled.
- BrkMmap.UserMmap: the file's bytes are a parameter; looking the file up and its failure are not modelled.
- Spawning and exec with their failure paths, which do not give every page back.

Of tasks and pipes:
- Registers other than the result of a wait, signal handlers and pending bits, cpu time, screen rows, names, working
  directories and the foreground slot. A signal that wakes a task is the event `DoResume`, a fatal one `DoKill`.
- The page behind a pipe comes from a parameter saying whether there is memory.
- `gen`, `died`, `collected`, `wrote`, `got` and `unbound` are records for the proofs; the source has no such fields.
- Schedulers.Scheduler.Wait: delivering the pending signal is not modelled.
- Schedulers.Scheduler.SysRead: the branch for pipes, without delivering a pending signal and copying to user memory.
- Schedulers.Scheduler.SysWrite: the branch for pipes, without delivering a pending signal and copying from user memory.
- Liveness after exit: with no ready task the kernel halts.
- Pipelines.RunCmds: redirections, parsing and the waits, which touch no descriptor. That the shell gets its table back
  holds whatever else happens; where the stages stand, while other tasks neither act on them nor bind the new pipes,
  and no stage exits before the last one is started. What they do afterwards is `Pipelines.WorksOn`.
- Bindings that break the counts are no events of the runs.

Of the volume:
- Input and output succeed; sectors are an array, directory sectors are kept as records of their slots, so loading and
  storing a directory and the 16- and 32-bit field accesses are not modelled.
- One directory at a time: paths, chdir, mkdir, rmdir, rename, and links between directories, which the source does
  not count.
- The calls on a file take its entry; `fs_write` looks the name up and creates the file first where it is missing.
- Volumes have room for two copies of the table in front of the data area, be it a root directory's.
- Names.MakeAlias: gathering the letters is a function, not the source's loop.
- Volumes start with chains in range, disjoint, ended and at most eight long; corrupt chains are outside.

Of the algorithms:
- Heaps.Heap.Malloc: for sizes whose sums do not wrap 64 bits; `brk` moves the break to where it was asked or not at all.
- Heaps.Heap.Grow: `brk` moves the break exactly to where it was asked, as the kernel's does, or not at all.
- Heaps.Heap.Free: a pointer into the heap is the payload of a block, as its callers owe.
- Elf.Load: the destination is left as the failing segment found it; its contents after a failure are not stated.
- Clock.AddSeconds: integers are unbounded; the ticks of 32 bits give fewer seconds than would wrap. Reading the
  hardware clock is not modelled.

Devices, display, keyboard, the kernel's own heap, block caching and boot code are not modelled.
