# SimpleOS2 kernel core: models and proofs

SimpleOS2 is a small x86-64 kernel. This project models the parts of it whose correctness is a
matter of logic and not of hardware, and proves what each part promises. The models keep the
source's own form: objects whose fields change are classes, buffers are arrays, and every such
method is proved against a function of the old state. On top of that, each part has a state machine
and theorems about every run of it.

| part | modules |
|---|---|
| intrusive list, free list, kernel heap, boot memory map, page allocator | AnchorList, FreeList, KernelHeap, PhysicalMap, PagePool |
| user page tables | AddressBits, PageTables, MemoryManager, ForkMap, UnmapEffect, ProcessMaps |
| paths, mounts, directories, files | Paths, PathBuffer, MountTree, MountTable, MountPaths, MountEffects, Directory, TempFs, TempFsOps, TempFsEffects |
| threads and locks | Threads, ThreadReaping, ThreadGroups, SchedulerOps, ThreadEffects, RoundRobin, ProcessorRuns, QueueLock |
| pipes, block cache | PipeFs, BlockCache |
| shared | Wrappers, Sequences |

`dafny verify dfyconfig.toml` checks everything.

Main results:

- Heap: over every run of allocate and free, live blocks and free segments partition the heap, a block
  is live if and only if it was allocated and not freed since, and a run that frees all its blocks
  ends with one segment.
- Pages: from the firmware's memory map on, the free list hands out a run of n pages whenever n
  adjacent pages are free, and takes and gives back exactly the frames it is asked for.
- Page tables: from booting on, every frame is in exactly one place at every point of every run; fork
  copies the translation and the contents into frames of the child's own; a run gives back the free
  frames it started with if and only if no step dropped a mapped page.
- Paths: the in-place passes over the buffer resolve a relative path from the working directory and an
  absolute one from the root; four laws about paths say what resolving is.
- Each operation on mounts, files and threads: what it answers and what it changes, entry by entry.
- Mounts: the greedy first-match descent finds the longest component prefix in every reachable
  mount tree; Unmount succeeds if and only if nothing is open on the mount, nothing is mounted below
  it, and nothing that was mounted below it was ever unmounted.
- Files: both counts are exact over every run, and a node exists if and only if it is the root,
  is named by an entry or is open.
- Threads: every thread has exactly one owner over every run, is freed once and only when exited; a
  thread that was waited for stays allocated if and only if an exiting parent waited for it; no run
  leaves a thread without its main thread if and only if no main thread exits past members of its
  group that join each other in a cycle.
- Scheduling: a ready thread with k threads before it is chosen by the (k+1)-th choice of its
  processor at the latest, whatever sweeps, wakeups and steps of other threads come in between.
- Locks, pipes, block cache, boot map: arrival-order grants, first-in first-out bytes, last write
  wins, exact usable memory.

Places where the code does not meet what one would expect are kept as they are:

- `UnmapProcessPage` and a map over a mapped page lose the old frame: `RunReturnsFrames` has the
  exact condition, `LostPage` and `LostFrame` a run from booting that loses one.
- `Unmount` leaves the reference of an unmounted child on its parent, so a mount that ever had
  another mount below it stays busy: `RunUnmountIff` has the exact condition, `UnmountCanStayBusy` a
  run of three calls.
- A mount whose parent has a later mount above it hands its lookups to that sibling when it is
  unmounted, not to its parent: `UnmountLookups` has the exact condition, `ShelteredHappens` a run.
- `Open` with the create flag may create the file and then fail with permission denied
  (`FailureChangesIff`, `FailureCanChange`); every other failing file call changes nothing.
- A thread that joins itself is on no list, so its main thread exits and is freed while the thread
  still points to it: `RunNoOrphansIff` has the exact condition, `SelfJoinBreaksMains` a run.
- A child that an exiting parent has waited for is never freed (place `Dropped`): `RunReapedForGood`
  has the exact condition, `ParentForgets` a run.
- The callers of `PreparePath` provide 255 bytes. For a relative path the length test allows one byte
  more, and for an absolute path the copy reads as many bytes behind the terminator as slashes lead
  the path: `PrepareOnStack` and `CallerBufferIff` say exactly for which paths every access stays
  inside, `OneByteShort` and `SlashesReadBehind` are a path of each kind that does not, and
  `PrepareInCallerBuffer` shows that 255 bytes are enough for all the others.
- `UnmapProcessPage` follows table entries that are absent and then clears some other word of memory:
  `UnmapOnlyPageIff` says exactly when this changes nothing else, and `StrayUnmap` is an unmap in one
  map that changes a page of another.
- The documentation of `PreparePath` speaks of any path; the code refuses user paths of 255 or more
  characters and joined paths that need more than 256 bytes, and so does the model.

## Model

| member | source | states |
|---|---|---|
| `AnchorList.List.PushBack` | src/Kernel/ktl/AnchorList.h:72-81 | the links spell the old sequence with the new element at its end |
| `AnchorList.List.Erase` | src/Kernel/ktl/AnchorList.h:114-128 | the links spell the old sequence without the element, in all four neighbour cases; its own links stay |
| `AnchorList.List.Remove` | src/Kernel/ktl/AnchorList.h:129-136 | erases the element if it is in the list, otherwise changes nothing |
| `AnchorList.List.PopFront` | src/Kernel/ktl/AnchorList.h:96-98 | removes and returns the first element |
| `AnchorList.List.PopBack` | src/Kernel/ktl/AnchorList.h:82-84 | removes and returns the last element |
| `AnchorList.List.Contains` | src/Kernel/ktl/AnchorList.h:23-26 | whether the element is in the list, and where |
| `AnchorList.WalkIsList` | src/Kernel/ktl/AnchorList.h:142-147 | n steps from the head reach exactly the n-th element, and none after the last |
| `FreeList.List.Init` | src/Kernel/ktl/FreeList.h:24-36 | takes over the boot loader's segments in their order, sizes in bytes |
| `FreeList.List.FindFree` | src/Kernel/ktl/FreeList.h:41-48 | base of the first segment that fits; None exactly when none does |
| `FreeList.List.MarkFree` | src/Kernel/ktl/FreeList.h:53-61 | covered addresses gain exactly [base, base+size) and the list stays canonical: non-empty, disjoint, non-adjacent segments |
| `FreeList.List.MarkUsed` | src/Kernel/ktl/FreeList.h:66-79 | covered addresses lose exactly [base, base+size) and the list stays canonical |
| `FreeList.List.JoinAdjacent` | src/Kernel/ktl/FreeList.h:82-98 | the restarting in-place joins compute Join; terminates because every restart has one node less |
| `FreeList.JoinRestores` | src/Kernel/ktl/FreeList.h:82-98 | repeated joining around one segment restores canonical form and keeps the covered addresses |
| `FreeList.FreedGains` | src/Kernel/ktl/FreeList.h:53-61 | canonical form and exact gain of the covered set, for every non-free range |
| `FreeList.UsedLoses` | src/Kernel/ktl/FreeList.h:66-79 | canonical form and exact loss of the covered set; the join after a split never merges |
| `FreeList.CanonicalIsUnique` | src/Kernel/ktl/FreeList.h:82-98 | a canonical list is determined by the addresses it covers |
| `FreeList.OneIntervalOneSegment` | src/Kernel/ktl/FreeList.h:82-98 | a canonical list covering one interval is that one segment |
| `FreeList.FreedAppends` | src/Kernel/ktl/FreeList.h:53-61 | memory that touches no segment becomes the last one of the list |
| `FreeList.FreedBefore` | src/Kernel/ktl/FreeList.h:82-98 | memory in front of one segment takes it over and becomes the last one |
| `FreeList.FreedBehind` | src/Kernel/ktl/FreeList.h:82-98 | memory behind one segment is added to it where it stands |
| `PagePool.Pool.AllocatePages` | src/Kernel/memory/MemoryManager.cpp:134-143 | the first of n adjacent free frames, which then are not free; fails exactly when no n adjacent frames are free |
| `PagePool.Pool.FreePages` | src/Kernel/memory/MemoryManager.cpp:144-146 | exactly the n frames become free |
| `PagePool.FitIffRun` | src/Kernel/memory/MemoryManager.cpp:134-143 | because free neighbours are always joined, some segment is large enough if and only if some n adjacent frames are free |
| `PagePool.Pool.TakeFrame` | src/Kernel/memory/MemoryManager.cpp:134-143 | for one page this is what the page tables' TakeFrame promises: some free frame, whenever there is one |
| `PagePool.Pool.PutFrame` | src/Kernel/memory/MemoryManager.cpp:144-146 | and what their PutFrame promises |
| `KernelHeap.Allocator.ReserveNew` | src/Kernel/memory/KernelHeap.cpp:16-24 | whole pages at the heap's end become free |
| `KernelHeap.Allocator.Allocate` | src/Kernel/memory/KernelHeap.cpp:26-41 | the new heap and pointer are those of Allocated; the second search cannot fail |
| `KernelHeap.Allocator.Free` | src/Kernel/memory/KernelHeap.cpp:42-53 | the block of the size in its header is free again; null does nothing |
| `KernelHeap.AllocatedKeeps` | src/Kernel/memory/KernelHeap.cpp:26-41 | the partition is kept, the block is new, 64-byte aligned and large enough for header and request |
| `KernelHeap.ReleasedKeeps` | src/Kernel/memory/KernelHeap.cpp:42-53 | freeing a live block keeps the partition |
| `KernelHeap.ReadyFits` | src/Kernel/memory/KernelHeap.cpp:31-36 | the search after ReserveNew always succeeds |
| `KernelHeap.AllocEffect` | src/Kernel/memory/KernelHeap.cpp:26-41 | one new live block, whose addresses are exactly those no longer free; the heap grows only without room, and then by as few pages as hold the block |
| `KernelHeap.AllocIsFirstFit` | src/Kernel/memory/KernelHeap.cpp:31-36 | the block starts where the first large enough free segment starts |
| `KernelHeap.FreeEffect` | src/Kernel/memory/KernelHeap.cpp:42-53 | exactly that block is no longer live and exactly its addresses become free; the null pointer changes nothing |
| `KernelHeap.RunLiveIff` | src/Kernel/memory/KernelHeap.cpp:16-53 | at every point of every run a block is live if and only if an Allocate gave it and no Free took it back since |
| `KernelHeap.RunFreesAll` | src/Kernel/memory/KernelHeap.cpp:16-53 | a run that frees each block it allocates ends with one single free segment |
| `KernelHeap.RunKeepsPartition` | src/Kernel/memory/KernelHeap.cpp:16-53 | in every run, free segments and live blocks partition [HeapBase, pos), all in units of 64 bytes |
| `KernelHeap.AllFreedIsOneSegment` | src/Kernel/memory/KernelHeap.cpp:16-53 | whenever every block of a run is freed, the free list is one single segment |
| `PhysicalMap.Mark` | src/Bootloader/physicalMap.cpp:13-27 | usable descriptors become conventional memory, the others dead |
| `PhysicalMap.MarkedOk` | src/Bootloader/physicalMap.cpp:13-27 | the live descriptors cover exactly the usable memory of the firmware's map |
| `PhysicalMap.JoinOne` | src/Bootloader/physicalMap.cpp:37-65 | joins with the first descriptor behind that touches, or there is none |
| `PhysicalMap.JoinAll` | src/Bootloader/physicalMap.cpp:30-66 | ends despite the restarts, with no two descriptors touching and the covered memory unchanged |
| `PhysicalMap.JoinedSettled` | src/Bootloader/physicalMap.cpp:51-64 | a join gives no earlier descriptor a new neighbour |
| `PhysicalMap.JoinedCount` | src/Bootloader/physicalMap.cpp:51-64 | a join uses up exactly one descriptor: the first part of the termination measure |
| `PhysicalMap.Compact` | src/Bootloader/physicalMap.cpp:69-83 | in place, the live descriptors in their order and nothing else |
| `PhysicalMap.CleanupMemMap` | src/Bootloader/physicalMap.cpp:9-84 | usable memory is kept exactly, in disjoint descriptors of which no two are adjacent |
| `PhysicalMap.BuildFreeList` | src/Bootloader/physicalMap.cpp:86-126 | the linked segments are those descriptors in order, and the first free list is canonical and covers exactly the usable memory |
| `PagePool.BootPool` | src/Kernel/memory/MemoryManager.cpp:77-105 | from the firmware's map to the first page allocator: exactly the frames of usable memory are free |
| `PageTables.IndicesInvert` | src/Kernel/memory/MemoryManager.cpp:48-51 | the address fork builds from three indices is taken apart into the same three indices |
| `PageTables.AddressInvert` | src/Kernel/memory/MemoryManager.cpp:48-51 | and the other way round for page-aligned addresses of a process |
| `PageTables.ShiftsInvert` | src/Kernel/memory/MemoryManager.cpp:242-242 | the same on 64-bit words with the shifts and masks of the macros |
| `AddressBits.PageOfBits` | src/Kernel/memory/MemoryManager.cpp:48-51 | on every 64-bit word the index macros compute the indices of the number it stands for |
| `AddressBits.VirtOfBits` | src/Kernel/memory/MemoryManager.cpp:242-242 | and the word fork builds stands for the address of its indices |
| `PageTables.ShiftsAdd` | src/Kernel/memory/MemoryManager.cpp:242-242 | the or-ed fields do not overlap, so the address is their sum |
| `PageTables.DecodeEntry` | src/Kernel/memory/MemoryManager.cpp:20-38 | an entry written for a frame is present and names that frame |
| `PageTables.Attach` | src/Kernel/memory/MemoryManager.cpp:366-388 | hanging a fresh zeroed table or page at one entry changes that position only and keeps the tree |
| `PageTables.Detach` | src/Kernel/memory/MemoryManager.cpp:466-472 | clearing a leaf entry removes that position only and keeps the tree |
| `MemoryManager.NextKeeps` | src/Kernel/memory/MemoryManager.cpp:134-489 | every operation keeps every frame in one place: free, held, lost, or one position of one tree |
| `MemoryManager.ExactlyOnePlace` | src/Kernel/memory/MemoryManager.cpp:134-489 | at every point of every run no frame is shared, inside a map or between maps |
| `MemoryManager.BootOk` | src/Kernel/memory/MemoryManager.cpp:77-105 | with all frames free but those of devices, every frame is in one place: where every run begins |
| `MemoryManager.OtherMapsUntouched` | src/Kernel/memory/MemoryManager.cpp:213-489 | no operation changes the translation or the page contents of another map |
| `MemoryManager.RunReturnsFrames` | src/Kernel/memory/MemoryManager.cpp:184-262 | after a run with the same maps and held pages the free frames are as before, if and only if no step dropped a mapped page |
| `ProcessMaps.Manager.constructor` | src/Kernel/memory/MemoryManager.cpp:77-105 | a machine after booting: all frames free but those of devices, no maps |
| `ProcessMaps.Manager.AllocatePages` | src/Kernel/memory/MemoryManager.cpp:134-142 | a free frame, and exactly this one, becomes held |
| `ProcessMaps.Manager.FreePages` | src/Kernel/memory/MemoryManager.cpp:144-147 | a held frame becomes free, and only that frame is written |
| `ProcessMaps.Manager.CreateProcessMap` | src/Kernel/memory/MemoryManager.cpp:213-222 | a new empty map in a frame that was free |
| `ProcessMaps.Manager.Descend` | src/Kernel/memory/MemoryManager.cpp:366-383 | the next table of the walk, added zeroed if absent, with all other positions unchanged |
| `ProcessMaps.Manager.MapProcessPage` | src/Kernel/memory/MemoryManager.cpp:358-396 | exactly the missing tables and the page are added; uses exactly the missing number of frames |
| `ProcessMaps.Manager.MapProcessPageAlloc` | src/Kernel/memory/MemoryManager.cpp:397-442 | the same with a frame of its own; nothing changes when the page is mapped |
| `ProcessMaps.Manager.UnmapProcessPage` | src/Kernel/memory/MemoryManager.cpp:458-485 | for every address: the word the walk ends at is cleared; with the tables present this unmaps exactly one page, whose frame is lost, and with tables absent every frame stays in its place unless the word hurts a map |
| `UnmapEffect.UnmapOnlyPageIff` | src/Kernel/memory/MemoryManager.cpp:458-485 | for every address, no position and no page of any map but the one unmapped changes if and only if the tables are present, or the word cleared instead is no present entry of a table and no word other than zero of a page |
| `UnmapEffect.HarmlessKeeps` | src/Kernel/memory/MemoryManager.cpp:458-485 | then every frame stays in its place |
| `ProcessMaps.StrayUnmap` | src/Kernel/memory/MemoryManager.cpp:458-497 | on any machine with a device at frame 0 whose first words are zero and not zero: with that frame mapped in one map, unmapping an absent page of another map changes the second word of the mapped page |
| `MemoryManager.OnePageChanges` | src/Kernel/memory/MemoryManager.cpp:358-489 | the step that Map and Unmap of ProcessMaps are proved to take changes the translation of exactly one page and the contents of no other; the allocating form does nothing when mapped |
| `ProcessMaps.Manager.FreeSubtree` | src/Kernel/memory/MemoryManager.cpp:184-211 | every table and page below a position is given back once, children first |
| `ProcessMaps.Manager.FreeProcessMap` | src/Kernel/memory/MemoryManager.cpp:258-262 | the map's whole footprint becomes free and the map is gone |
| `ProcessMaps.LostPage` | src/Kernel/memory/MemoryManager.cpp:258-485 | on every machine with four frames a map can be created, a page mapped and unmapped and the map freed |
| `ProcessMaps.LostIsRun` | src/Kernel/memory/MemoryManager.cpp:258-485 | those calls are a run from booting |
| `ProcessMaps.LostFrame` | src/Kernel/memory/MemoryManager.cpp:458-485 | after which no map is left and all frames are free but that page |
| `ProcessMaps.Manager.ForkPage` | src/Kernel/memory/MemoryManager.cpp:240-248 | one page is copied into a fresh frame and mapped at the same address |
| `ProcessMaps.Manager.ForkProcessMap` | src/Kernel/memory/MemoryManager.cpp:223-256 | the child has exactly the parent's pages with equal contents in other frames, which were free; one free frame per parent frame is enough |
| `ForkMap.ParentUnchanged` | src/Kernel/memory/MemoryManager.cpp:223-256 | during the whole fork the parent's translation and pages are as they were |
| `ForkMap.CopyKeepsForkState` | src/Kernel/memory/MemoryManager.cpp:240-248 | one round copies the next page in order and keeps all earlier ones |
| `ForkMap.RoomLeft` | src/Kernel/memory/MemoryManager.cpp:240-248 | there is always a free frame left for the page and the tables it still needs |
| `Paths.PassesGiveCanonical` | src/Kernel/fs/VFS.cpp:129-171 | stripping, squeezing, cutting the last slash and the fold give the canonical path of the components |
| `Paths.CanonicalIsClean` | src/Kernel/fs/VFS.cpp:122-128 | no component of a prepared path is empty, "." or ".." |
| `Paths.JoinEnds` | src/Kernel/fs/VFS.cpp:122-128 | a prepared path has no leading and no trailing slash |
| `Paths.Idempotent` | src/Kernel/fs/VFS.cpp:122-128 | preparing a slash and a prepared path gives that path back |
| `Paths.DotLaw` | src/Kernel/fs/VFS.cpp:83-88 | a "." or a double slash anywhere in a path can be left out |
| `Paths.DotDotLaw` | src/Kernel/fs/VFS.cpp:89-99 | so can a component and the ".." behind it |
| `Paths.RootLaw` | src/Kernel/fs/VFS.cpp:90-93 | so can a ".." in front of everything |
| `Paths.CleanLaw` | src/Kernel/fs/VFS.cpp:66-120 | and all other components are kept, in their order |
| `Paths.SplitJoin` | src/Kernel/fs/VFS.cpp:71-81 | joining components and splitting again gives the components |
| `Paths.PiecesFit` | src/Kernel/fs/VFS.cpp:66-81 | a squeezed path of 255 characters needs at most 128 stack entries |
| `PathBuffer.CutPieces` | src/Kernel/fs/VFS.cpp:67-81 | the buffer is cut into its components, in order and without overlap |
| `PathBuffer.RemoveDots` | src/Kernel/fs/VFS.cpp:83-103 | the index-deleting loop ends and leaves the left fold of the components |
| `PathBuffer.Rebuild` | src/Kernel/fs/VFS.cpp:105-117 | every write lands before the components still to be copied; the buffer holds them joined |
| `PathBuffer.NormalizePath` | src/Kernel/fs/VFS.cpp:66-120 | in place, the resolved components joined by slashes, for every squeezed path of at most 255 characters |
| `PathBuffer.SqueezeSlashes` | src/Kernel/fs/VFS.cpp:145-168 | in place, runs of slashes become one and a trailing slash goes |
| `PathBuffer.PrepareRelativePath` | src/Kernel/fs/VFS.cpp:36-55 | in place, the working directory in front, or path too long |
| `PathBuffer.PrepareAbsolutePath` | src/Kernel/fs/VFS.cpp:57-64 | in place, without leading slashes; copies as many bytes as the path has from behind them and so touches the bytes up to their sum |
| `PathBuffer.PreparePath` | src/Kernel/fs/VFS.cpp:129-171 | exactly when each error is returned; otherwise a relative path is resolved from where the components of the working directory lead, an absolute one from the root; exactly how far into the buffer it touches, which is all it needs of it |
| `PathBuffer.CallerBufferIff` | src/Kernel/fs/VFS.cpp:46-47 | the bytes touched are within the 255 the callers provide if and only if a relative path and a non-empty working directory do not have 254 characters together, and an absolute path and its leading slashes have at most 254 |
| `PathBuffer.OneByteShort` | src/Kernel/fs/VFS.cpp:46-47 | a relative path for which byte 256 is written |
| `PathBuffer.SlashesReadBehind` | src/Kernel/fs/VFS.cpp:57-64 | for 200 slashes 401 bytes are touched |
| `PathBuffer.PrepareOnStack` | src/Kernel/fs/VFS.cpp:484-488 | for every path, on the memory from the buffer on: result and errors, and every access is inside the 255 bytes if and only if that condition holds |
| `PathBuffer.PrepareInCallerBuffer` | src/Kernel/fs/VFS.cpp:484-488 | for all those paths a buffer of 255 bytes is enough |
| `MountTree.MountCmp` | src/Kernel/fs/VFS.cpp:173-184 | the mount path is the path or a prefix of it up to a slash |
| `MountTree.LookupIsLongest` | src/Kernel/fs/VFS.cpp:186-211 | the greedy descent ends at the one mount with the longest path that applies |
| `MountTree.PathsUnique` | src/Kernel/fs/VFS.cpp:1180-1185 | no two mounts have the same path |
| `MountTree.MountKeeps` | src/Kernel/fs/VFS.cpp:1180-1214 | mounting where nothing is mounted keeps every mount findable by its own path |
| `MountTree.UnmountKeeps` | src/Kernel/fs/VFS.cpp:1317-1325 | removing a mount without children does too |
| `MountTable.Vfs.FindMountPoint` | src/Kernel/fs/VFS.cpp:186-211 | the result of the descent, and one reference on it and on nothing else |
| `MountTable.Vfs.Mount` | src/Kernel/fs/VFS.cpp:1162-1217 | the new mount hangs below the mount of its path and keeps the reference on it; errors change nothing |
| `MountTable.Vfs.Unmount` | src/Kernel/fs/VFS.cpp:1299-1331 | removes an unreferenced mount; errors change nothing |
| `MountTable.Vfs.Open` | src/Kernel/fs/VFS.cpp:1338-1423 | an open descriptor holds one reference on its mount; a failed open holds none |
| `MountTable.Vfs.Close` | src/Kernel/fs/VFS.cpp:1434-1450 | the last close gives the reference back |
| `MountTable.Vfs.Access` | src/Kernel/fs/VFS.cpp:412-455 | any other path operation gives its reference on the mount back, whatever it finds |
| `MountTable.FailureChangesNothing` | src/Kernel/fs/VFS.cpp:1162-1463 | the step these methods are proved to take leaves every mount, count and descriptor as it was when it returns an error |
| `MountEffects.MountStatus` | src/Kernel/fs/VFS.cpp:1162-1217 | Mount succeeds if and only if nothing is mounted there and the walk finds the folder; otherwise which error |
| `MountEffects.MountEffect` | src/Kernel/fs/VFS.cpp:1191-1214 | one new mount, last child of the mount its path belonged to, which gets a reference; nothing else changes |
| `MountEffects.MountLookups` | src/Kernel/fs/VFS.cpp:186-211 | exactly the lookups below the new path that ended at its parent end at the new mount |
| `MountEffects.UnmountStatus` | src/Kernel/fs/VFS.cpp:1299-1331 | which answer Unmount gives: root, no mount point, busy or done |
| `MountEffects.UnmountEffect` | src/Kernel/fs/VFS.cpp:1317-1325 | exactly this mount is gone, its parent keeps its other children in their order, no other mount and no descriptor changes |
| `MountEffects.RunUnmountClears` | src/Kernel/fs/VFS.cpp:1299-1331 | in every run nothing is mounted at the path of a successful Unmount afterwards |
| `MountEffects.OtherLookups` | src/Kernel/fs/VFS.cpp:186-211 | lookups that ended elsewhere do not change with an Unmount |
| `MountEffects.UnmountLookups` | src/Kernel/fs/VFS.cpp:186-211 | those that ended at the mount that is gone end at its parent if and only if no sibling is mounted above it |
| `MountEffects.ShelteredHappens` | src/Kernel/fs/VFS.cpp:1180-1214 | such a sibling: "a" mounted after "a/b" |
| `MountEffects.OpenEffect` | src/Kernel/fs/VFS.cpp:1338-1423 | one new descriptor with one user and one reference on the mount of its path |
| `MountEffects.CloseEffect` | src/Kernel/fs/VFS.cpp:1434-1450 | one user less; with the last one the descriptor and its reference are gone |
| `MountEffects.OthersEffect` | src/Kernel/fs/VFS.cpp:1455-1463 | one user more for AddRef; any other path operation changes nothing |
| `MountTable.RunLookupIsLongest` | src/Kernel/fs/VFS.cpp:186-211 | longest prefix in every reachable mount tree, whatever order mounts came in |
| `MountTable.RunUnmountIff` | src/Kernel/fs/VFS.cpp:1299-1331 | in every run, Unmount succeeds if and only if the path is a mount on which nothing is open, below which nothing is mounted, and from below which nothing was unmounted since it is mounted |
| `MountTable.LeftIsUnmounted` | src/Kernel/fs/VFS.cpp:1317-1325 | the references left behind on a mount are exactly the earlier unmounts of its children in the run |
| `MountTable.UnmountCanStayBusy` | src/Kernel/fs/VFS.cpp:1299-1331 | after mounting "a" and "a/b" and unmounting "a/b", "a" is busy with nothing open on it and nothing below it |
| `MountPaths.CoversIsComponentPrefix` | src/Kernel/fs/VFS.cpp:173-184 | the character comparison accepts exactly the component prefixes |
| `MountPaths.RunLookupByComponents` | src/Kernel/fs/VFS.cpp:186-211 | in every reachable tree the mount found has the most components among those that are a component prefix |
| `Directory.PathWalk` | src/Kernel/fs/Directory.cpp:5-27 | true exactly when the name is the path's first component, and then what is left are the other components |
| `Directory.Directory.FindEntry` | src/Kernel/fs/Directory.cpp:29-39 | the first entry named by the first component |
| `Directory.Directory.AddEntry` | src/Kernel/fs/Directory.cpp:50-67 | the contents with the new entry at the end, with or without moving to a larger array |
| `Directory.Directory.RemoveEntry` | src/Kernel/fs/Directory.cpp:68-76 | the contents without the entry, the others in order |
| `Directory.RestIsTail` | src/Kernel/fs/Directory.cpp:10-17 | what is left has the components after the first |
| `TempFs.RunLifetimes` | src/Kernel/fs/VFS.cpp:229-277 | in every run both counts are exact, and a node exists if and only if it is the root, named by an entry or open |
| `TempFs.StepKeeps` | src/Kernel/fs/VFS.cpp:484-1450 | every file operation keeps the counts exact and nothing dangling |
| `TempFsOps.Vfs.AcquireNode` | src/Kernel/fs/VFS.cpp:229-259 | one more reference on the node |
| `TempFsOps.Vfs.ReleaseNode` | src/Kernel/fs/VFS.cpp:261-277 | one reference less, and the node is destroyed when both counts are zero |
| `TempFsOps.Vfs.AcquirePath` | src/Kernel/fs/VFS.cpp:342-407 | the walk's result, with references on exactly what it returns |
| `TempFsOps.Vfs.Create` | src/Kernel/fs/VFS.cpp:484-542 | the new node with one link, or an error that leaves every count as it was |
| `TempFsOps.Vfs.Link` | src/Kernel/fs/VFS.cpp:782-873 | one more entry and link, all references of both walks given back on every path |
| `TempFsOps.Vfs.Delete` | src/Kernel/fs/VFS.cpp:881-943 | one entry and link less; the node dies if nothing refers to it |
| `TempFsOps.Vfs.Open` | src/Kernel/fs/VFS.cpp:1338-1423 | a descriptor with one reference on the found or created file, or an error |
| `TempFsOps.Vfs.Close` | src/Kernel/fs/VFS.cpp:1434-1450 | the last close drops the reference, and a deleted file dies with it |
| `TempFsOps.Vfs.AddRef` | src/Kernel/fs/VFS.cpp:1455-1463 | one more user of the descriptor, no change to the node |
| `TempFs.FailureChangesIff` | src/Kernel/fs/VFS.cpp:1357-1410 | the step Open and the other methods of TempFsOps are proved to take changes something on failure exactly when Open created the file and the folder's rights do not allow the access |
| `TempFs.FailureCanChange` | src/Kernel/fs/VFS.cpp:1357-1410 | a run from a fresh file system: root makes a folder all may write and none may read, and a user's Open with create leaves the file behind and is refused |
| `TempFsEffects.WalkTrace` | src/Kernel/fs/VFS.cpp:342-407 | a walk follows one directory entry per component through directories the user may enter, and which of them ends it with which result |
| `TempFsEffects.ChainUnique` | src/Kernel/fs/VFS.cpp:342-407 | there is only one such way |
| `TempFsEffects.AllowedIff` | src/Kernel/fs/VFS.cpp:324-335 | a right is given by the first of owner, group and other that fits, and the superuser has every right |
| `TempFsEffects.AllowedEach` | src/Kernel/fs/VFS.cpp:324-335 | several rights are given if each of them is |
| `TempFsEffects.CreateStatus` | src/Kernel/fs/VFS.cpp:484-542 | a create succeeds if and only if only the last name is missing and its folder may be written; otherwise which error |
| `TempFsEffects.CreateEffect` | src/Kernel/fs/VFS.cpp:484-542 | one new node with one link, its name last in the folder, nothing else changes |
| `TempFsEffects.LinkStatus` | src/Kernel/fs/VFS.cpp:782-873 | which answer a hard link gives |
| `TempFsEffects.LinkEffect` | src/Kernel/fs/VFS.cpp:782-873 | one more name, last in the folder, and one more link of the node, nothing else changes |
| `TempFsEffects.DeleteStatus` | src/Kernel/fs/VFS.cpp:881-943 | which answer Delete gives |
| `TempFsEffects.DeleteEffect` | src/Kernel/fs/VFS.cpp:921-939 | exactly the entry is gone, the node has one link less and is gone if that was its last and nobody has it open, nothing else changes |
| `TempFsEffects.DeleteFreesName` | src/Kernel/fs/VFS.cpp:881-943 | afterwards the same walk finds the folder and not the name |
| `TempFsEffects.OpenExisting` | src/Kernel/fs/VFS.cpp:1338-1423 | what Open of an existing node answers and changes |
| `TempFsEffects.OpenMissing` | src/Kernel/fs/VFS.cpp:1357-1410 | what Open with create makes of a missing file, with the folder's rights but Execute |
| `TempFsEffects.OpenFails` | src/Kernel/fs/VFS.cpp:1338-1423 | an Open whose walk fails answers why and changes nothing |
| `TempFsEffects.CloseEffect` | src/Kernel/fs/VFS.cpp:1434-1450 | one user less; with the last one the descriptor is gone, and the node if it has no link and nobody else has it open |
| `TempFsEffects.AddRefEffect` | src/Kernel/fs/VFS.cpp:1455-1463 | one user more |
| `Threads.StepKeeps` | src/Kernel/scheduler/Scheduler.cpp:267-638 | every step keeps the ownership invariant |
| `Threads.RunOwnership` | src/Kernel/scheduler/Scheduler.cpp:369-475 | at every point of every run a thread is in exactly one child list, or the target of exactly one join, or in one detach, or reaped |
| `Threads.FreedWhenExited` | src/Kernel/scheduler/Scheduler.cpp:428-434 | a thread is freed only when it has exited, is on no active list and no other join waits for it |
| `Threads.FreedForGood` | src/Kernel/scheduler/Scheduler.cpp:428-466 | what is freed never comes back, so nothing is freed twice |
| `ThreadReaping.ReapedHow` | src/Kernel/scheduler/Scheduler.cpp:420-610 | the step that reaps a thread frees it unless it is the return of an exiting parent's join, which forgets it |
| `ThreadReaping.RunDroppedStays` | src/Kernel/scheduler/Scheduler.cpp:588-610 | a forgotten thread stays forgotten and allocated to the end of every run |
| `ThreadReaping.RunReapedForGood` | src/Kernel/scheduler/Scheduler.cpp:420-610 | a thread reaped at some step is allocated at any later point if and only if that step was the return of an exiting parent's join |
| `ThreadReaping.ParentForgets` | src/Kernel/scheduler/Scheduler.cpp:588-610 | a legal run of eleven steps that ends with such a thread |
| `ThreadGroups.LiveMembersIffCycle` | src/Kernel/scheduler/Scheduler.cpp:588-610 | when a main thread finds its child list empty, other threads of its group are left if and only if some of them join each other in a cycle |
| `ThreadGroups.RunNoOrphansIff` | src/Kernel/scheduler/Scheduler.cpp:588-610 | a run never leaves a thread behind its exiting main thread if and only if no main thread exits while its members have such a cycle |
| `ThreadGroups.RunMainsAllocated` | src/Kernel/scheduler/Scheduler.cpp:588-610 | in those runs the main thread of every thread that has not exited is allocated |
| `ThreadGroups.RunGuardedJoins` | src/Kernel/scheduler/Scheduler.cpp:402-417 | a run in which no join closes a cycle is one of those |
| `ThreadGroups.KillNoCycle` | src/Kernel/scheduler/Scheduler.cpp:588-610 | the joins of an exiting parent never close a cycle |
| `ThreadGroups.SelfJoinBreaksMains` | src/Kernel/scheduler/Scheduler.cpp:402-437 | a run of thirteen legal steps, one of them a thread joining itself, in which the main thread exits past the cycle and which leaves a dangling main-thread pointer |
| `SchedulerOps.Scheduler.CloneThread` | src/Kernel/scheduler/Scheduler.cpp:300-323 | the new thread is the last child of the caller's main thread |
| `SchedulerOps.Scheduler.DetachTake` | src/Kernel/scheduler/Scheduler.cpp:369-390 | a child that is a process is off the list and on its way; which error otherwise, without a change |
| `SchedulerOps.Scheduler.DetachGive` | src/Kernel/scheduler/Scheduler.cpp:392-394 | gives it to the init thread |
| `SchedulerOps.Scheduler.JoinTake` | src/Kernel/scheduler/Scheduler.cpp:402-417 | a child is off the list and waited for; not found otherwise, without a change |
| `SchedulerOps.Scheduler.JoinReturn` | src/Kernel/scheduler/Scheduler.cpp:420-436 | puts it back when interrupted, frees it otherwise |
| `SchedulerOps.Scheduler.TryJoin` | src/Kernel/scheduler/Scheduler.cpp:445-475 | an exited child is off the list and freed; which error otherwise, without a change |
| `SchedulerOps.Scheduler.KillPop` | src/Kernel/scheduler/Scheduler.cpp:588-602 | takes the last child and tells it to abort, or sees an empty list |
| `SchedulerOps.Scheduler.KillReturn` | src/Kernel/scheduler/Scheduler.cpp:604-608 | puts the child back when interrupted, forgets it otherwise |
| `SchedulerOps.Scheduler.UpdateEvents` | src/Kernel/scheduler/Scheduler.cpp:72-127 | one sweep: every thread is looked at once in list order, exactly the finished ones leave the list |
| `SchedulerOps.SweepKeepsReady` | src/Kernel/scheduler/Scheduler.cpp:89-123 | a ready thread is ready after the sweep |
| `SchedulerOps.SweepNoFurther` | src/Kernel/scheduler/Scheduler.cpp:79-88 | and not further back in the list |
| `ThreadEffects.SweepEachThread` | src/Kernel/scheduler/Scheduler.cpp:79-126 | how each thread of the list is after the sweep: a due sleeper is ready, a finished one has exited, a join ends when the other thread has exited or a kill is pending |
| `ThreadEffects.SweepEffect` | src/Kernel/scheduler/Scheduler.cpp:79-126 | and no other thread and no child list changes |
| `ThreadEffects.VisitedCalls` | src/Kernel/scheduler/Scheduler.cpp:106-122 | a woken join knows whether it was interrupted |
| `ThreadEffects.CloneEffect` | src/Kernel/scheduler/Scheduler.cpp:300-323 | what cloning changes: one ready thread, last in one child list |
| `ThreadEffects.DetachTakeEffect` | src/Kernel/scheduler/Scheduler.cpp:369-390 | what the first half of a detach changes |
| `ThreadEffects.DetachGiveEffect` | src/Kernel/scheduler/Scheduler.cpp:392-394 | the detached thread is last in the list of init |
| `ThreadEffects.JoinTakeEffect` | src/Kernel/scheduler/Scheduler.cpp:402-417 | what a join changes before it blocks |
| `ThreadEffects.BlockEffect` | src/Kernel/scheduler/Scheduler.cpp:420-420 | the caller waits for that thread |
| `ThreadEffects.JoinReturnEffect` | src/Kernel/scheduler/Scheduler.cpp:420-436 | the target is back at the end of its list when interrupted, and otherwise freed, or forgotten by an exiting parent |
| `ThreadEffects.TryJoinEffect` | src/Kernel/scheduler/Scheduler.cpp:445-475 | what a try-join changes |
| `ThreadEffects.KillPopEffect` | src/Kernel/scheduler/Scheduler.cpp:588-602 | the last child is off the list, told to abort, and waited for |
| `ThreadEffects.OwnEffects` | src/Kernel/scheduler/Scheduler.cpp:330-638 | what starting, sleeping, finishing, and setting or clearing a pending kill change: that thread only |
| `SchedulerOps.Scheduler.FindNextThread` | src/Kernel/scheduler/Scheduler.cpp:129-143 | returns the first ready thread and moves it to the end of the list; without one the list stays |
| `RoundRobin.IdleIffNoneReady` | src/Kernel/scheduler/Scheduler.cpp:142-142 | what FindNextThread is proved to return is the idle thread if and only if no listed thread is ready |
| `ProcessorRuns.RunBoundedWaiting` | src/Kernel/scheduler/Scheduler.cpp:72-143 | in every run of sweeps, choices and new threads of a processor mixed with any steps of other threads, a thread that no step of its own takes from being ready, with k threads before it, is returned by the (k+1)-th FindNextThread at the latest |
| `QueueLock.QueueLock.Lock` | src/Kernel/locks/QueueLock.cpp:12-25 | takes one from the count, or queues the caller last |
| `QueueLock.QueueLock.Unlock` | src/Kernel/locks/QueueLock.cpp:34-46 | wakes the first waiter, or adds one to the count |
| `QueueLock.RunKeeps` | src/Kernel/locks/QueueLock.cpp:12-46 | in every run count and grants add up, threads queue only at count zero, and arrivals are the grants followed by the queue |
| `QueueLock.RunExcludes` | src/Kernel/locks/QueueLock.cpp:5-46 | threads past Lock and the count add up to the initial count; with one, at most one thread is past Lock |
| `QueueLock.RunIsDecided` | src/Kernel/locks/QueueLock.cpp:12-46 | in every run grants, queue and count are decided by the calls of Lock and Unlock so far: with n permits in all the first n callers have one, the others wait in order, the count is the rest |
| `QueueLock.RunInside` | src/Kernel/locks/QueueLock.cpp:12-46 | the threads past Lock are those with a grant that have not called Unlock since |
| `PipeFs.Pipe.Read` | src/Kernel/fs/PipeFS.cpp:50-95 | takes the smaller of request and contents from the front of the queue, in all wrap cases; a faulting buffer leaves the queue |
| `PipeFs.Pipe.Write` | src/Kernel/fs/PipeFS.cpp:107-163 | appends the smaller of request and room to the queue, in all wrap cases; a faulting buffer leaves the queue |
| `PipeFs.MovesExactly` | src/Kernel/fs/PipeFS.cpp:50-163 | an accessible buffer moves exactly the smaller of request and contents, or of data and room up to 4095; a faulting one nothing |
| `PipeFs.RingPut` | src/Kernel/fs/PipeFS.cpp:112-161 | bytes put behind the write position are appended to the ring's contents |
| `PipeFs.RingTake` | src/Kernel/fs/PipeFS.cpp:55-94 | moving the read position drops the front of the ring's contents |
| `PipeFs.RunIsFifo` | src/Kernel/fs/PipeFS.cpp:15-184 | in every run, for every pipe in use: bytes read are the first bytes written, the rest is in the queue of at most 4095, and nothing is left from an earlier pipe in the slot |
| `PipeFs.Fs.CreateNode` | src/Kernel/fs/PipeFS.cpp:15-38 | an empty pipe in the first free slot or a new one, never in one in use |
| `PipeFs.Fs.DestroyNode` | src/Kernel/fs/PipeFS.cpp:39-43 | the pipe is gone, every other one is as it was |
| `PipeFs.OthersUnchanged` | src/Kernel/fs/PipeFS.cpp:15-43 | the step the calls are proved to take leaves every other pipe in use as it was, and a new pipe takes no slot in use |
| `PipeFs.Fs.WriteNodeData` | src/Kernel/fs/PipeFS.cpp:164-184 | with other processes reading and writing between the rounds: what the pipe got meanwhile is pieces of this call and of the others, the pieces of this call are exactly a prefix of its data, and all of it when the call returns its size |
| `PipeFs.InOrder` | src/Kernel/fs/PipeFS.cpp:164-184 | so the bytes of a call stand in the pipe in their order |
| `BlockCache.Driver.Acquire` | src/Kernel/devices/DeviceDriver.cpp:35-52 | a reference on the one cached block, read from the device if it is new |
| `BlockCache.Driver.ReadBlock` | src/Kernel/devices/RamDeviceDriver.cpp:35-45 | the block's bytes on the device |
| `BlockCache.Driver.Release` | src/Kernel/devices/DeviceDriver.cpp:53-58 | no block is referenced after the call |
| `BlockCache.Driver.GetData` | src/Kernel/devices/DeviceDriver.cpp:60-109 | the flat bytes of any range, as far as the caller's buffer goes; one cached block per block number and no references left |
| `BlockCache.Driver.SetData` | src/Kernel/devices/DeviceDriver.cpp:110-161 | the flat bytes with the range overwritten, as far as the caller's buffer goes |
| `BlockCache.LastWriteWins` | src/Kernel/devices/DeviceDriver.cpp:60-161 | in every run each byte is that of the last write over it, or the device's |

## Left out

- Hardware: interrupts, APIC, TLB invalidation and the page-synchronising interrupt, context switches, saved registers.
- Allocation failure and 64-bit overflow: enough free frames, heap address space and pages that end below 2^64 are preconditions; the frame allocator hands out some free frame.
- FreeList.List.MarkFree: requires a non-empty range that is not free, as every caller passes.
- ProcessMaps.Manager.UnmapProcessPage: requires memory at the addresses that are followed; when a clearing hurts a map it states the memory only, because frames then have no place.
- ProcessMaps.Manager.AllocatePages: hands out one page, as the page tables need it; runs of pages are those of PagePool.Pool.AllocatePages.
- ProcessMaps.Manager.FreePages: gives back one page; runs of pages are those of PagePool.Pool.FreePages.
- ProcessMaps keeps the free frames as a set: that the page allocator refines it is proved in PagePool, and the two objects are not linked.
- PipeFs.Fs.WriteNodeData: pipes created and destroyed by others between its rounds are not part of the call.
- ProcessMaps.Manager.MapProcessPage: requires a page the kernel holds, which is how device memory is held from booting on; mapping one physical page a second time, into the same or another map, is not part of the model.
- AnchorList.List.Contains: that the walk meets every element once and in order is in its loop invariants and in WalkIsList, not in its contract.
- AnchorList is proved to behave as a sequence and is not composed with FreeList, SchedulerOps and MountTree, which use sequences: that their lists are linked through the elements, and that an element is on one list at a time by construction, is not modelled there.
- MountTable.Vfs.Mount: whether the folder exists, is a folder and may be written comes in as the result of the walk, because it depends on the directory nodes of the file systems mounted above.
- MountTable.Vfs.Open: whether the file is found and allowed comes in as the result of the walk; TempFsOps has the walk inside one file system.
- MountTable.Vfs.Access: the walk is an input here too.
- TempFsOps.Vfs.AcquirePath: no symbolic links, and so no mode of Delete that does not follow the last one.
- TempFsOps.Vfs.Link: one file system, so the error for links across mounts cannot arise.
- SchedulerOps.Scheduler.UpdateEvents: which sleepers are due is an input, and threads waiting for a QueueLock and the delivery of kills are not part of the sweep.
- BlockCache.Driver.ReadBlock: the read of one block, which is all the cache asks for; transfers of several blocks and writing back to the device are not part of the model.
- BlockCache.Driver.GetData: requires the block behind a range that ends on a block boundary to exist, because the code reads it.
- SchedulerOps.Scheduler.DetachTake: between it and DetachGive a thread is on no list, which the ownership theorem shows as a place of its own.
- Symbolic links: following them need not end, and stored targets are not in prepared form.
- Hard links across mounts, DevFS, ext2 and other file systems; the directory nodes of mounted file systems are an input of the mount model.
- `Mount` passes the parent mount to the new file system instead of the new one (src/Kernel/fs/VFS.cpp:1208); only the root node of a TempFS is affected, and it cannot be opened.
- The mount count of pipes, which Close lowers and CreatePipe never raises.
- Concurrency inside the VFS, the page tables and the block cache: one call at a time. Threads and QueueLock are step by step.
- Delivery of kills and aborts, exit progress, sleep durations (which sleepers are due is an input) and the QUEUE_LOCK state in the sweep.
- QueueLock wakeups across processors: only safety is stated.
- The spinning loop of reading an empty pipe, file contents of TempFS, permissions of devices, thread file-descriptor tables.
- Faulting user copies stop at the first byte that cannot be accessed; the copy routines themselves are not modelled.
