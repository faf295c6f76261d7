# ArmoniOS kernel, modelled in Dafny

ArmoniOS is a freestanding AArch64 kernel written in C. This project models the stateful core of it and proves, for every
input and every run, what its data structures keep: who owns which physical page, what the page tables translate and allow,
which process gets which pid and exit code, what the files of a FAT32 volume contain and how they stand on the device, how the
heap tiles its arenas, what a USB host controller sees of a ring, and what the file table, the mailboxes, the damage list, the
argument vector and the directory listing mean.

`dafny verify dfyconfig.toml` checks everything. Nothing here executes the kernel.

## How it is built

Each part has a specification on values (functions and predicates on records, sequences, sets and maps), lemmas about that
specification, and classes whose methods follow the loops and in-place updates of the C code and are proved equal to the
specification. Where the state of the C code has a meaning that is not written down in it (the tree of tables, the chain of a
file, the list of heap blocks, the queue of a ring), the meaning is a ghost value and an invariant ties it to the bytes. What a
specification computes is in turn tied to something outside it: what the processor grants on a descriptor, the layout of a boot
sector or a directory entry, a quantifier over the table of processes, the conditions under which a call succeeds.

| part | files |
|---|---|
| shared types | `Basics.dfy` |
| physical pages | `Pmm.dfy` |
| page tables | `PageTableFormat.dfy`, `PageTree.dfy`, `VmmSpec.dfy`, `VmmRanges.dfy`, `VmmWhen.dfy`, `VmmTeardown.dfy`, `Vmm.dfy` |
| processes, user memory, spawning | `ProcessSpec.dfy`, `UserVmSpec.dfy`, `UserVmWhen.dfy`, `SpawnSpec.dfy`, `KernelSpec.dfy`, `KernelRuns.dfy`, `KernelMeaning.dfy`, `SpawnMeaning.dfy`, `KernelStart.dfy`, `KernelBoot.dfy`, `KernelFamily.dfy`, `Kernel.dfy` |
| memory isolation | `IsolationSpec.dfy`, `KernelIsolation.dfy`, `MmapWitness.dfy` |
| FAT32 volume | `Fat32Layout.dfy`, `FatChains.dfy`, `Fat32Disk.dfy`, `Fat32Volume.dfy`, `Fat32Format.dfy`, `Fat32Names.dfy`, `Fat32Spelling.dfy`, `Fat32Search.dfy`, `Fat32Steps.dfy`, `Fat32Changes.dfy`, `Fat32Handles.dfy`, `Fat32Entries.dfy`, `Fat32Writing.dfy`, `Fat32Marks.dfy`, `Fat32Files.dfy`, `Fat32.dfy`, `Fat32Runs.dfy` |
| directory listing | `DirListing.dfy`, `RootListing.dfy` |
| kernel heap | `HeapSpec.dfy`, `HeapOps.dfy`, `HeapLinks.dfy`, `KernelHeap.dfy` |
| xHCI rings | `XhciRing.dfy`, `XhciEvents.dfy` |
| display damage | `Damage.dfy` |
| paths and open files | `VfsPath.dfy`, `VfsLaws.dfy`, `OpenFileSpec.dfy`, `OpenFiles.dfy` |
| argument vector | `Argv.dfy` |
| mailboxes | `Ipc.dfy` |

## The main results

- **Page tables refine a map.** `Mapping` is what a hardware walk gives for each virtual page. Mapping a page adds one binding
  or none, other bindings stay, and the tables stay a tree of distinct used pages (`VmmSpec.MapPageOk`); it succeeds exactly
  when its path is not barred and there are pages for the tables it lacks (`VmmWhen.MapPageWhen`). Range mapping is all
  or nothing (`VmmRanges.MapRangeOk`, `VmmWhen.MapRangeWhen`), unmapping undoes it (`VmmRanges.MapThenUnmap`), and teardown frees
  exactly the tree (`VmmTeardown.FreeTableOk`).
- **Descriptors grant what was asked for.** What user mode and the kernel may read, write and execute through a descriptor is
  defined as the processor decides it, and every byte of a mapped range grants exactly the access asked for
  (`PageTableFormat.DescriptorGrants`, `VmmRanges.MapRangeGrants`, `UserVmSpec.ProtectionMeans`); so do the image and the stack of
  a new process (`SpawnMeaning.StartAllows`).
- **No page is lost or shared, from power on.** Through any number of boots of the first process and any events after them
  (spawn, mmap, munmap, exit, kill, wait, preemption) the free pages and the pages of all processes partition the pool, and
  no page is writable and executable; whenever the machine is back outside user mode, every slot is idle and every page
  is free (`KernelBoot.EveryLife`). Boot does succeed when there are pages enough (`KernelBoot.BootSucceeds`). A failed spawn
  or boot leaves the free set as zombie reclaim left it, whichever step failed (`KernelRuns.SpawnOk`, `KernelBoot.BootKeeps`);
  a successful one gives the new process exactly its image, its stack and the kernel ranges (`SpawnMeaning.SpawnMeans`).
  `KernelTable.Kernel.Live` connects a whole life of the imperative kernel to this.
- **Memory isolation.** In every such life, every page that a process can reach in user mode belongs, at its place, to a
  region that process owns (`KernelIsolation.EveryLifeSound`). It is not free, holds nobody's page table, and no other process
  holds or reaches it (`KernelIsolation.Isolated`, `KernelIsolation.NothingShared`). If the kernel ranges keep out of the mmap
  window, user mode reaches exactly the regions (`KernelIsolation.ExactReach`), every mmap within the limits succeeds
  (`KernelIsolation.MmapEvent`) and every region can be given back (`KernelIsolation.MunmapEvent`).
- **Pids and exit codes.** Every spawn that passes its checks uses up one pid, so that pids differ until the 32-bit counter has
  gone round (`KernelFamily.PidsDiffer`), and it succeeds from every state of the invariant that has what it needs
  (`KernelFamily.SpawnSucceeds`). Only zombies without a living parent are reclaimed (`KernelMeaning.ReclaimMeans`), so the code
  a process exits with is what its parent's first wait answers, however much later (`KernelFamily.ExitThenWait`).
- **Bounded waiting.** A process that stays ready is overtaken by at most 14 dispatches (`KernelRuns.BoundedWaiting`).
- **A FAT32 volume means a map from names to contents.** Every run of create, read, write, delete and rename acts on that map
  as it should, refuses in exactly the stated cases, and keeps the volume invariant up to the first operation that leaks a
  cluster, if there is one (`Fat32Runs.Run`).
- **The volume stands on the device in the FAT32 format.** A boot sector written field by field mounts as its geometry
  (`Fat32Format.FormatThenMount`), entries, table and contents are where the format has them (`Fat32Format.EntryRoundTrip`,
  `Fat32Format.TableFormat`, `Fat32Format.ContentFormat`), and a name stands in its entry in capitals and is found in either case
  (`Fat32Spelling.NameStands`, `Fat32Spelling.FoundByName`).
- **The listing shows exactly the files.** The root listing has one line for each file and subdirectory and no other
  (`RootListing.RootLines`); create, delete and rename add, remove and replace exactly one line (`RootListing.CreatedListing`,
  `RootListing.DeletedListing`, `RootListing.RenamedListing`), and what is listed opens the file (`RootListing.LineOpens`).
- **The heap tiles its arenas** over every run, live blocks are disjoint, and freeing everything leaves one free block per
  arena (`KernelHeap.Serve`, `HeapSpec.AllFreed`).
- **Cycle-bit rings are queues** under every interleaving of single stores with a controller's looks: what was delivered and
  what the ring then holds is what was published (`XhciRing.RingIsFifo`, `XhciEvents.EventsAreFifo`), and a controller that
  keeps looking gets all of it (`XhciRing.AllArrive`).
- **The rest**: no damage is lost (`Damage.NothingLost`), path normalisation has the component-stack meaning
  (`VfsPath.NormalizeOk`, `VfsLaws.ResolveWhen`), descriptors stay on the path they were opened on (`OpenFileSpec.RunOk`),
  arguments round-trip to the new stack (`Argv.PassArgv`), chunked directory reads equal one unbounded read
  (`DirListing.ReadDir`), and mailboxes are one queue per process (`Ipc.Mailboxes.Send`, `Ipc.Mailboxes.Receive`).

## Where the code falls short of a natural claim

Each of these is kept as the code has it, with the exact condition proved.

- A failing anonymous mapping restores all translations exactly when the range it chose does not begin on a page that is
  already mapped: its undo path unmaps that range a second time (`UserVmSpec.FailedMapRestores`). `MmapWitness.FailedMmapLoses`
  boots a machine on which a failing call takes a kernel page away. If the kernel ranges keep out of the mmap window this
  never happens (`KernelIsolation.FailedMmapRestores`).
- A file name whose first byte is 0xe5, the deleted mark, is accepted. Creating such a file leaks its cluster at once
  (`Fat32Marks.CreateLeaks`); renaming a file to such a name leaks its clusters exactly when it has any
  (`Fat32Marks.RenameMarked`). `Fat32Runs.MarkedName` is such a name.
- A ring push needs more than a free slot. If the consumer has still to follow the link of the last lap, a push into the last
  slot of this lap rewrites that link and the consumer waits although blocks are outstanding (`XhciRing.LinkParked` is such a
  state, `XhciRing.NoRoomStuck` the general case). Fewer than `size - 2` outstanding blocks always suffice
  (`XhciRing.RoomEnough`).
- The search for a free cluster stops at the first cluster marked bad, so it succeeds exactly when a cluster below that one is
  free (`FatChains.FindFreeWhen`). `FatChains.BadHidesFree` is a table with a free cluster that allocation does not find.

## Model

| member | source | states |
|---|---|---|
| `PhysicalPages.FirstRunIsLowest` | kernel/mm/pmm.c:147-178 | first fit yields the lowest run of that many free pages, and nothing only when no such run exists |
| `PhysicalPages.Pmm.constructor` | kernel/mm/pmm.c:74-94 | exactly the managed pages start free, except page 0 of an allocator based at 0, and the counter is the number of clear bits |
| `PhysicalPages.Pmm.SetUsed` | kernel/mm/pmm.c:52-61 | marking a page takes exactly it from the free set and keeps counter and bitmap in agreement, also when it was used already |
| `PhysicalPages.Pmm.SetFree` | kernel/mm/pmm.c:63-72 | freeing a page adds exactly it to the free set and keeps counter and bitmap in agreement, also when it was free already |
| `PhysicalPages.Pmm.ReserveRange` | kernel/mm/pmm.c:96-131 | exactly the managed pages that share a byte with the range leave the free set, for every start and size, with saturation at 2^64 |
| `PhysicalPages.Pmm.AllocPage` | kernel/mm/pmm.c:133-145 | the lowest free page is taken; when none is free the answer is 0 and nothing changes (a base of 0 gives 0 for page 0 as well) |
| `PhysicalPages.Pmm.AllocPages` | kernel/mm/pmm.c:147-178 | the lowest run is taken and exactly its pages leave the free set; 0 only for count 0 or when no run exists, and then nothing changes |
| `PhysicalPages.Pmm.FreePage` | kernel/mm/pmm.c:180-193 | a managed page becomes free; foreign, unaligned and already free addresses change nothing |
| `PageTableFormat.IndexIsDigit` | kernel/mm/vmm.c:67-69 | the shift and mask of each level give the base-512 digits of the page number |
| `PageTableFormat.MaskKeeps` | kernel/mm/vmm.c:37-37 | the address field keeps every page address below 2^48 intact |
| `PageTableFormat.DescriptorGrants` | kernel/mm/vmm.c:135-162 | through the descriptor of a page user mode and the kernel can read, write and execute exactly what the flags ask for, at that page |
| `PageTree.LookupIsLeaf` | kernel/mm/vmm.c:238-256 | the hardware walk reads exactly the leaf entries of the ghost tree |
| `PageTree.DisjointTreeKept` | kernel/mm/vmm.c:71-198 | a change confined to other pages leaves a tree and all its translations as they were |
| `PageTree.AddTable` | kernel/mm/vmm.c:114-133 | linking a fresh zeroed table keeps a tree of distinct pages and adds no translation |
| `PageTree.SetLeaf` | kernel/mm/vmm.c:164-198 | storing one leaf entry changes the translation of that page and of no other |
| `VmmSpec.NewTableOk` | kernel/mm/vmm.c:77-88 | a new table is a zeroed page taken from the free set; there is none only when no page is free |
| `VmmSpec.NextTableOk` | kernel/mm/vmm.c:114-133 | stepping down, with or without a new table, keeps the tree and every translation; it fails only without free pages or at a block entry |
| `VmmSpec.DescendOk` | kernel/mm/vmm.c:164-198 | the whole descent keeps every translation, and a failure half way leaves a sound tree |
| `VmmSpec.MapPageOk` | kernel/mm/vmm.c:164-198 | success adds exactly one binding where there was none, whose descriptor lets user mode and the kernel read, write and execute exactly what was asked for; failure adds none and has one of the stated causes; the tables stay a tree of distinct used pages |
| `VmmWhen.MapPageWhen` | kernel/mm/vmm.c:114-198 | a page is mapped exactly when it is aligned and unmapped, no block entry bars its path and free pages suffice for the tables the path lacks; it takes exactly so many |
| `VmmSpec.UnmapPageOk` | kernel/mm/vmm.c:258-285 | succeeds exactly on an aligned mapped page and removes exactly that binding |
| `VmmRanges.MapRangeOk` | kernel/mm/vmm.c:200-236 | success binds every page of the range, all of them new; failure at any page restores the exact previous translation |
| `VmmRanges.MapRangeGrants` | kernel/mm/vmm.c:200-236 | byte for byte, a mapped range leads to its physical range with exactly the access asked for |
| `VmmRanges.FitsIs` | kernel/mm/vmm.c:47-65 | a range is accepted exactly when, rounded up to pages, it ends below 2^64 |
| `VmmRanges.PageCountIs` | kernel/mm/vmm.c:47-65 | the page count is that of the pages the range touches |
| `VmmWhen.MapRangeWhen` | kernel/mm/vmm.c:200-236 | with pages enough and no block entries, a range is mapped exactly when both addresses agree within their page, the physical end fits and none of its pages is mapped |
| `VmmWhen.MapRangeSucceeds` | kernel/mm/vmm.c:200-236 | in a tree without block entries, and so in every tree this code builds, an unmapped range is mapped whenever three free pages a page are left |
| `VmmRanges.UnmapRangeOk` | kernel/mm/vmm.c:287-314 | removes all pages of the range or stops at the first one not mapped, having removed exactly those before it |
| `VmmRanges.MapThenUnmap` | kernel/mm/vmm.c:200-314 | unmapping what a successful range mapping mapped succeeds and restores the previous translation |
| `VmmTeardown.FreeLevelOk` | kernel/mm/vmm.c:90-108 | the recursive teardown of a table frees exactly the tables at or below it, each once |
| `VmmTeardown.FreeTableOk` | kernel/mm/vmm.c:110-112 | teardown of a page table returns exactly the pages of its tree |
| `VirtualMemory.Vmm.NewTable` | kernel/mm/vmm.c:77-88 | the code allocates and clears a table as the specification has it |
| `VirtualMemory.Vmm.NextTable` | kernel/mm/vmm.c:114-133 | the code follows or creates a child as the specification has it, for every entry |
| `VirtualMemory.Vmm.MapPage` | kernel/mm/vmm.c:164-198 | the code has the result and the memory and free pages of the specification that `MapPageOk` and `MapPageWhen` are about |
| `VirtualMemory.Vmm.LeafTable` | kernel/mm/vmm.c:238-256 | finds the leaf table the walk ends in, or 0 when a level is missing |
| `VirtualMemory.Vmm.UnmapPage` | kernel/mm/vmm.c:258-285 | the code has the result and memory of the specification that `UnmapPageOk` is about |
| `VirtualMemory.Vmm.PageSpan` | kernel/mm/vmm.c:47-65 | the aligned length of a range, and nothing when it does not fit 64 bits |
| `VirtualMemory.Vmm.MapRange` | kernel/mm/vmm.c:200-236 | loop and rollback together have the result and state that `MapRangeOk`, `MapRangeGrants` and `MapRangeWhen` are about |
| `VirtualMemory.Vmm.RollBack` | kernel/mm/vmm.c:227-230 | the undo loop unmaps the pages mapped so far and no others |
| `VirtualMemory.Vmm.UnmapRange` | kernel/mm/vmm.c:287-314 | the loop has the result and memory that `UnmapRangeOk` is about |
| `VirtualMemory.Vmm.FreeTableLevel` | kernel/mm/vmm.c:90-108 | the recursion frees what the specification that `FreeLevelOk` is about frees, on any memory |
| `VirtualMemory.Vmm.FreeTable` | kernel/mm/vmm.c:110-112 | the teardown that `FreeTableOk` is about |
| `VirtualMemory.Vmm.LeafEntry` | kernel/mm/vmm.c:316-324 | a valid entry is exactly what the walk finds for the address |
| `VirtualMemory.Vmm.VirtToPhys` | kernel/mm/vmm.c:326-334 | the physical address of the translation plus the page offset, 0 when there is none |
| `ProcessSpec.FreeResourcesOk` | kernel/process.c:89-115 | releasing a process frees exactly the pages of its owned regions and of its page tables |
| `UserVmSpec.AddThenFind` | kernel/process.c:438-563 | a region just added is the one a search finds, and removing it restores the list |
| `UserVmSpec.OwnedRemove` | kernel/process.c:537-563 | removing a region takes exactly its pages out of what the process owns |
| `UserVmWhen.AddRegionWhen` | kernel/process.c:438-462 | a region is added exactly when it is a non-empty range below 2^64 that meets no other and there are fewer than eight |
| `UserVmWhen.AllocRegionWhen` | kernel/process.c:464-493 | a place in the mmap window is found exactly when there is room from the cursor to the limit, the place is clear and there are fewer than eight regions |
| `UserVmSpec.ProtectionMeans` | kernel/user_vm.c:31-61 | a protection is accepted exactly when it has no unknown bit and is not both writable and executable; its descriptor then lets user mode do exactly what it names |
| `UserVmSpec.FlagsNotWriteExec` | kernel/user_vm.c:31-61 | no accepted protection is writable and executable |
| `UserVmSpec.UndoAnonymousOk` | kernel/user_vm.c:101-114 | the undo path of a failed mapping gives every page back, page tables excepted, and keeps the process sound |
| `UserVmSpec.MapAnonymousOk` | kernel/user_vm.c:69-118 | every call, failing ones included, only moves pages between the process and the free set and keeps regions, tree and W^X sound |
| `UserVmSpec.MapAnonymousMeaning` | kernel/user_vm.c:69-118 | a mapped range is new, within the window and at the cursor, byte for byte it leads to the lowest run of free pages with exactly the access asked for, and the new region owns it |
| `UserVmSpec.FailedMapRestores` | kernel/user_vm.c:69-118 | a failed call restores every translation if and only if the range it chose did not begin on a mapped page |
| `UserVmSpec.FailedMapShrinks` | kernel/user_vm.c:69-118 | a failed call keeps all regions, says where the cursor goes, and at worst takes translations away, never adds or changes one |
| `UserVmSpec.UnmapAnonymousOk` | kernel/user_vm.c:120-143 | every call only moves pages between the process and the free set and keeps the process sound |
| `UserVmSpec.UnmapAnonymousMeaning` | kernel/user_vm.c:120-143 | success gives up exactly the region with those bounds, frees exactly its pages and ends exactly its translations; failure changes no region and frees nothing |
| `UserVmSpec.MapThenUnmapAnonymous` | kernel/user_vm.c:69-143 | unmapping what was just mapped succeeds and restores translation, regions and, but for new table pages, the free set |
| `UserVmWhen.MapAnonymousSucceeds` | kernel/user_vm.c:69-118 | a permitted request succeeds at the cursor whenever a region is left, the window has room, nothing is mapped there, and memory has the run of pages and three pages a page for tables |
| `UserVmWhen.UnmapAnonymousWhen` | kernel/user_vm.c:120-143 | succeeds exactly when a region that owns its pages has just those bounds and all its pages are mapped; with no such region nothing changes |
| `SpawnSpec.LoadImageOk` | kernel/panel_boot.c:97-139 | image pages come from the free set, and a failure at either step puts them all back |
| `SpawnSpec.FreeStorageOk` | kernel/panel_boot.c:73-95 | freeing loader storage returns exactly its pages |
| `SpawnSpec.MapPhysicalOk` | kernel/user_vm.c:145-167 | mapping loader pages into a region, failing or not, keeps the process sound and moves no ownership |
| `SpawnSpec.MapKernelOk` | kernel/mm/vmm.c:337-400 | the kernel identity mapping, however far it gets, only grows the tree and keeps W^X |
| `SpawnSpec.CreatePageTableOk` | kernel/panel_boot.c:147-185 | whichever step fails, no page of the new page table is lost |
| `SpawnSpec.InitProcessOk` | kernel/panel_boot.c:187-238 | at every failure point the pages free before are those free now, held by the loader, or held by the process; on success the loader holds none |
| `SpawnSpec.UndoSpawn` | kernel/panel_boot.c:253-324 | the common undo returns exactly the pages that were free before the spawn |
| `KernelSpec.OtherSlotKept` | kernel/process.c:89-115 | a step of one process leaves the pages, the tree and the translation of every other process alone |
| `KernelSpec.LiftStep` | kernel/user_vm.c:69-143 | a sound step of one process keeps all pages of all processes disjoint, used and accounted for |
| `KernelSpec.ReleaseOk` | kernel/process.c:163-191 | release keeps the table invariant and returns exactly what the process held |
| `KernelSpec.ReclaimOk` | kernel/process.c:312-332 | reclaiming zombies keeps the invariant and touches no process that is not a zombie |
| `KernelSpec.MarkExitedOk` | kernel/process.c:408-436 | exiting keeps the table invariant and every page in place; what it means is `ExitMeans` |
| `KernelSpec.KillOk` | kernel/process.c:300-310 | killing keeps the invariant; what it means is `KillMeans` |
| `KernelSpec.WaitOk` | kernel/process.c:283-298 | collecting a zombie keeps the invariant; what it means is `WaitMeans` |
| `KernelSpec.SlotCallOk` | kernel/user_vm.c:69-143 | a memory call of a live process keeps the invariant of the whole table |
| `KernelSpec.FillOk` | kernel/panel_boot.c:97-238 | loading and setup are a step of their slot alone: the process is set up, or the slot is idle and every page back, whichever step failed |
| `KernelSpec.SpawnIntoOk` | kernel/panel_boot.c:275-324 | the new slot ends ready with its pages, or idle with every page back and the table otherwise untouched |
| `KernelSpec.BootOk` | kernel/process.c:137-145 | the invariant holds at boot |
| `KernelRuns.AllocOk` | kernel/process.c:147-161 | a slot is handed out only if it is the first idle one and the pid is usable and unused; the invariant and the pid counter are kept |
| `KernelRuns.SpawnOk` | kernel/panel_boot.c:253-324 | a spawn keeps the invariant; every call that passes its checks moves the pid counter on by one, modulo 2^32, and a successful one answers the pid it stood at; a failing one, whichever step failed, leaves free pages and table exactly as zombie reclaim left them |
| `SpawnMeaning.MapKernelMeaning` | kernel/mm/vmm.c:337-400 | the identity mapping, when it succeeds, binds exactly the pages of its ranges |
| `SpawnMeaning.CreatePageTableMeaning` | kernel/panel_boot.c:147-185 | a new page table translates exactly the kernel ranges, two read-execute image pages and one read-write stack page, at different places |
| `SpawnMeaning.InitProcessMeaning` | kernel/panel_boot.c:187-238 | a process that was set up owns exactly image and stack, stands at its entry with its stack pointer on top, and has that translation |
| `SpawnMeaning.SpawnMeans` | kernel/panel_boot.c:253-324 | a successful spawn fills the first idle slot and changes no other; the new process is a ready child of the running process, has the pid answered and its arguments in registers and stack pointer, and owns the lowest free pages, with exactly those regions, accesses and translations |
| `SpawnMeaning.FillMeans` | kernel/panel_boot.c:97-238 | a filled slot owns exactly image and stack on the lowest free pages, stands at its entry, can execute but not write the one and write but not execute the other, and translates exactly these and the kernel ranges |
| `SpawnMeaning.StartAllows` | kernel/panel_boot.c:147-185 | the program can execute every byte of its image and not write it, and write every byte of its stack and not execute it |
| `KernelMeaning.ReclaimMeans` | kernel/process.c:312-332 | one pass releases exactly the zombies whose parent is 0 or is the pid of no living process in the table at the outset, whatever their order, and returns exactly what they held; every other process keeps slot and pages |
| `KernelMeaning.DispatchWhen` | kernel/process.c:250-281 | succeeds exactly when another process is ready and there is one to preempt; only the run states of the two processes change |
| `KernelFamily.ExitMeans` | kernel/syscall_process.c:179-195 | exit makes the caller a zombie with that code and changes nothing else but who runs |
| `KernelFamily.KillMeans` | kernel/syscall_process.c:131-145 | a living process other than the caller becomes a zombie with code 0x80 and nobody else is touched; any other request changes nothing, and exactly a pid nobody has is answered as such |
| `KernelFamily.WaitMeans` | kernel/syscall_process.c:105-129 | a dead child of the caller is collected: the answer is its exit code, its slot is emptied and its pages are free; any other request changes nothing and the answer says exactly what stands against it |
| `KernelFamily.DeadStays` | kernel/process.c:312-332 | whatever happens while its parent lives and has not waited for it, a dead process keeps its slot and its exit code |
| `KernelFamily.ExitThenWait` | kernel/syscall_process.c:105-195 | the code a process exits with is what the first wait of its parent answers, over any events in between |
| `KernelFamily.RunNextPid` | kernel/panel_boot.c:253-324 | over any events the pid counter moves on by the number of spawns that passed their checks, modulo 2^32 |
| `KernelFamily.PidsDiffer` | kernel/panel_boot.c:253-324 | two successful spawns, with any events and fewer than 2^32 - 1 attempts between them, answer different pids |
| `KernelFamily.SpawnSucceeds` | kernel/panel_boot.c:253-324 | from any state of the invariant, with the checks passed, the pid usable and free, an idle slot after reclaiming and memory enough, a spawn answers the next pid |
| `KernelFamily.SpawnNeeds` | kernel/panel_boot.c:253-324 | a successful spawn had its checks passed, a usable pid nobody has, an idle slot after reclaiming, and two adjacent free pages |
| `KernelRuns.ScanIsFirst` | kernel/process.c:230-248 | the scan picks the first ready slot in circular order after the current one |
| `KernelRuns.DispatchApproaches` | kernel/process.c:230-248 | a ready process is picked or the turn moves strictly closer to it |
| `KernelRuns.DispatchOk` | kernel/process.c:250-281 | dispatch keeps the invariant: at most one process runs and it is the current one |
| `KernelRuns.StepKeeps` | kernel/syscall_process.c:58-195 | every system call or tick keeps the whole invariant |
| `KernelRuns.RunKeeps` | kernel/syscall_process.c:58-195 | over any events from any state of the invariant: free and held pages partition the pool, processes share none, pids are unique, W^X holds and only the current process runs |
| `KernelStart.FillSucceeds` | kernel/panel_boot.c:97-238 | with a loadable image, kernel ranges that do not collide and pages enough, no step of the setup fails |
| `KernelBoot.BootKeeps` | kernel/panel_boot.c:326-373 | booting the first process keeps the invariant and starts the pid counter at 2 if it was 0; success leaves it running, failure leaves free pages and table exactly as zombie reclaim left them |
| `KernelBoot.BootSucceeds` | kernel/panel_boot.c:326-373 | from power on, with pages enough, boot enters user mode with the first process set up in the first slot |
| `KernelBoot.LastExit` | kernel/syscall_process.c:179-195 | an event after which nobody runs was the exit of the last process alive; all others are dead |
| `KernelBoot.LeaveEmpties` | kernel/panel_boot.c:385-386 | with nobody left to run, the clean-up after user mode empties every slot and returns every page of the pool |
| `KernelBoot.EveryLife` | kernel/panel_boot.c:326-389 | from power on through any boots and events the whole invariant holds, no page table has a block entry, and outside user mode every slot is idle and every page free |
| `IsolationSpec.StartSound` | kernel/panel_boot.c:147-238 | a process just started reaches in user mode only its image and its stack |
| `IsolationSpec.MapSound` | kernel/user_vm.c:69-118 | mmap, failing or not, keeps every user page in an owned region, at its place, and nothing mapped ahead of the cursor |
| `IsolationSpec.UnmapSound` | kernel/user_vm.c:120-143 | munmap, failing or not, leaves no user page of a region that went |
| `KernelIsolation.StepSound` | kernel/syscall_process.c:58-195 | every event keeps every process to pages of regions it owns |
| `KernelIsolation.EveryLifeSound` | kernel/panel_boot.c:326-389 | from power on, whatever happens, user mode reaches only pages of regions the process owns; when the kernel keeps out of the mmap window, all pages of the regions as well |
| `KernelIsolation.Isolated` | kernel/process.c:89-115 | a page a process can reach is owned by it, not free, no page table of anybody, and held by no other process |
| `KernelIsolation.NothingShared` | kernel/process.c:89-115 | two processes never reach the same page in user mode |
| `KernelIsolation.FailedMmapRestores` | kernel/user_vm.c:69-118 | when the kernel keeps out of the mmap window, every failing mmap in every life restores every translation |
| `KernelIsolation.ExactReach` | kernel/user_vm.c:69-143 | when the kernel keeps out of the mmap window, a page is reachable from user mode if and only if it is a page of a region, and leads to the page of memory at that place of the region |
| `KernelIsolation.MmapEvent` | kernel/syscall_process.c:151-154 | in any such state a permitted request of the running process, with a region and room left and memory enough, yields a new region at the cursor, every byte of it usable as asked |
| `KernelIsolation.MunmapSucceeds` | kernel/user_vm.c:120-143 | in any such state every region of a process can be unmapped |
| `KernelIsolation.MunmapEvent` | kernel/syscall_process.c:147-149 | giving a region back takes exactly that region from the running process and returns exactly its pages |
| `MmapWitness.TakenPlaceLoses` | kernel/user_vm.c:101-106 | an mmap whose place is mapped already fails and changes the translation |
| `MmapWitness.FailedMmapLoses` | kernel/user_vm.c:101-106 | a machine that boots, whose first mmap fails and takes a kernel page out of the translation |
| `KernelRuns.BoundedWaiting` | kernel/process.c:230-281 | while a process stays ready at most 14 dispatches go to others, whatever they do, so the fifteenth runs it |
| `KernelTable.Kernel.constructor` | kernel/process.c:137-145 | the machine at power on; with the pool free it satisfies the invariant of the table |
| `KernelTable.Kernel.FindRegion` | kernel/process.c:517-535 | the region with exactly those bounds, if there is one |
| `KernelTable.Kernel.AddRegion` | kernel/process.c:438-462 | appends a valid region to a list with room, else changes nothing |
| `KernelTable.Kernel.AllocRegion` | kernel/process.c:464-493 | reserves the next aligned range of the window, or changes nothing |
| `KernelTable.Kernel.SetMapping` | kernel/process.c:495-515 | records the physical side of exactly the region found |
| `KernelTable.Kernel.RemoveRegion` | kernel/process.c:537-563 | shifting in place removes exactly the region found and keeps the order of the rest |
| `KernelTable.Kernel.FreePageRange` | kernel/user_vm.c:63-67 | frees the pages of the range, each once |
| `KernelTable.Kernel.MapAnonymous` | kernel/user_vm.c:69-118 | result, pages, regions and tables are those of the specification that `MapAnonymousOk`, `MapAnonymousMeaning` and `MapAnonymousSucceeds` are about |
| `KernelTable.Kernel.UnmapAnonymous` | kernel/user_vm.c:120-143 | result and state are those `UnmapAnonymousMeaning` and `UnmapAnonymousWhen` are about |
| `KernelTable.Kernel.MapPhysical` | kernel/user_vm.c:145-167 | result and state are those `MapPhysicalOk` is about |
| `KernelTable.Kernel.ProcessFind` | kernel/process.c:215-228 | the slot of a live process with that pid |
| `KernelTable.Kernel.ProcessAlloc` | kernel/process.c:147-161 | state and slot are those `AllocOk` is about |
| `KernelTable.Kernel.FreeResources` | kernel/process.c:89-115 | frees what `FreeResourcesOk` says |
| `KernelTable.Kernel.Release` | kernel/process.c:163-191 | state is that `ReleaseOk` is about |
| `KernelTable.Kernel.ReclaimZombies` | kernel/process.c:312-332 | state is that `ReclaimOk` and `ReclaimMeans` are about |
| `KernelTable.Kernel.MarkExited` | kernel/process.c:408-436 | the slot becomes a zombie with its exit code, nothing else changes |
| `KernelTable.Kernel.Kill` | kernel/process.c:300-310 | a live process other than the current one becomes a zombie; otherwise nothing changes |
| `KernelTable.Kernel.WaitZombie` | kernel/process.c:283-298 | a zombie is released and its exit code handed over, or nothing changes |
| `KernelTable.Kernel.SysWait` | kernel/syscall_process.c:105-129 | answer and state are those `WaitMeans` and `ExitThenWait` are about |
| `KernelTable.Kernel.SysKill` | kernel/syscall_process.c:131-145 | answer and state are those `KillMeans` is about |
| `KernelTable.Kernel.NextRunnable` | kernel/process.c:230-248 | the slot `ScanIsFirst` describes |
| `KernelTable.Kernel.Dispatch` | kernel/process.c:250-281 | state is that `DispatchOk` is about |
| `KernelTable.Kernel.LoadImage` | kernel/panel_boot.c:97-139 | result and state are those `LoadImageOk` is about |
| `KernelTable.Kernel.CreatePageTable` | kernel/panel_boot.c:147-185 | result and state are those `CreatePageTableOk` is about |
| `KernelTable.Kernel.PrepareProcess` | kernel/user_image.c:181-212 | registers both regions and the entry, or restores the regions and entry it found |
| `KernelTable.Kernel.InitProcess` | kernel/panel_boot.c:187-238 | result and state are those `InitProcessOk` is about |
| `KernelTable.Kernel.Spawn` | kernel/panel_boot.c:253-324 | result and state are those `SpawnOk`, `SpawnMeans`, `SpawnSucceeds` and `PidsDiffer` are about |
| `KernelTable.Kernel.Fill` | kernel/panel_boot.c:97-238 | result and state are those `FillOk` is about |
| `KernelTable.Kernel.SpawnInto` | kernel/panel_boot.c:275-324 | result and state are those `SpawnIntoOk` is about |
| `KernelTable.Kernel.Boot` | kernel/panel_boot.c:326-373 | result and state are those `BootKeeps` is about |
| `KernelTable.Kernel.Leave` | kernel/panel_boot.c:385-386 | state is that `LeaveEmpties` is about |
| `KernelTable.Kernel.Act` | kernel/panel_boot.c:326-389 | one act of the imperative machine is one step of the specified machine |
| `KernelTable.Kernel.Live` | kernel/panel_boot.c:326-389 | a whole life of the imperative kernel ends in the state of the specified life, which `EveryLife` and `EveryLifeSound` are about |
| `KernelTable.Kernel.Handle` | kernel/syscall_process.c:58-195 | one event of the imperative kernel is one step of the specification |
| `KernelTable.Kernel.HandleAll` | kernel/syscall_process.c:58-195 | a whole run of the imperative kernel ends in the state of the specified run, which `RunKeeps` and `BoundedWaiting` are about |
| `Fat32Layout.MountOk` | kernel/fat32.c:418-491 | a boot sector is accepted if and only if it describes a geometry with every region in place, and as that geometry |
| `Fat32Format.BootRoundTrip` | kernel/fat32.c:418-491 | from a boot sector laid out in the FAT32 format the driver reads exactly the fields that were written, the long sector count when the short one is 0 |
| `Fat32Format.FormatThenMount` | kernel/fat32.c:418-491 | a boot sector written for a sound geometry mounts as that geometry, and one that mounts has that geometry |
| `Fat32Format.TableFormat` | kernel/fat32.c:209-237 | the table entry of a cluster is the four little-endian bytes at four times its number after the reserved sectors, without the top four bits |
| `Fat32Format.ClusterOrder` | kernel/fat32.c:185-188 | clusters follow one another from the start of the data area, number 2 first |
| `Fat32Format.ContentFormat` | kernel/fat32.c:635-723 | each byte of a content stands in the cluster of its chain and at the distance from its start that its number says |
| `Fat32Format.ChainBytes` | kernel/fat32.c:391-416 | a chain holds 512 bytes for each sector of its clusters |
| `Fat32Format.SlotFormat` | kernel/fat32.c:510-561 | slot n of a directory is the 32 bytes from 32 n on of its chain |
| `Fat32Format.EntryRoundTrip` | kernel/fat32.c:500-564 | from an entry laid out in the FAT32 format the driver reads exactly name, attribute, first cluster and size as written |
| `Fat32Format.FileKinds` | kernel/fat32.c:510-561 | an entry is a file exactly when it is neither at the end nor deleted, no directory, and no part of a long name, for every combination of attribute bits |
| `Fat32Format.WriteDirEntryFormat` | kernel/fat32.c:910-920 | the entry of a new file is written in that format, everything not given set to 0 |
| `Fat32Layout.PutGet32` | kernel/fat32.c:26-38 | a stored 32-bit field reads back and leaves every other field alone |
| `Fat32Layout.FatSectorInRange` | kernel/fat32.c:209-273 | every table entry lies inside its own copy of the table |
| `Fat32Layout.ClusterInRange` | kernel/fat32.c:185-188 | every sector of a data cluster lies in the data area |
| `Fat32Layout.ClustersApart` | kernel/fat32.c:185-188 | different clusters share no sector |
| `FatChains.PathDistinct` | kernel/fat32.c:391-416 | a chain that reaches an end mark visits no cluster twice |
| `FatChains.Pigeonhole` | kernel/fat32.c:391-416 | distinct clusters are no more than the table has |
| `FatChains.PathUnique` | kernel/fat32.c:209-237 | at most one chain starts at a cluster |
| `FatChains.CapacityOk` | kernel/fat32.c:391-416 | on any table, cyclic ones included, measuring succeeds exactly when the walk reaches an end mark through data clusters and the total fits 32 bits, and gives length times cluster size |
| `FatChains.FreeChainOk` | kernel/fat32.c:372-389 | freeing a chain succeeds and clears exactly its clusters |
| `FatChains.FindFreeOk` | kernel/fat32.c:281-294 | the lowest free cluster, unless a bad cluster comes before it |
| `FatChains.FindFreeWhen` | kernel/fat32.c:281-294 | the search succeeds exactly when a cluster below the first bad one is free |
| `FatChains.BadHidesFree` | kernel/fat32.c:281-294 | a table with a free cluster that neither search nor allocation finds |
| `FatChains.AllocateOk` | kernel/fat32.c:302-330 | takes a free cluster and makes it the new end of exactly that chain; failure changes nothing |
| `Fat32Disk.WriteFatView` | kernel/fat32.c:244-273 | writing an entry to all copies changes that entry of the table and no other |
| `Fat32Disk.WriteFatFrame` | kernel/fat32.c:244-273 | writing an entry leaves the data area alone and keeps the copies equal |
| `Fat32Volume.LbasApart` | kernel/fat32.c:185-188 | chains without a common cluster have no common sector |
| `Fat32Names.ShortNameInjective` | kernel/fat32.c:63-125 | two names denote the same entry exactly when they differ in case only |
| `Fat32Names.ShortNameFirst` | kernel/fat32.c:63-125 | a stored name never begins with the end mark, and with the deleted mark exactly when the given one does |
| `Fat32Spelling.NameStands` | kernel/fat32.c:54-125 | an accepted name is a base of one to eight and an extension of at most three allowed characters; they stand at 0 and at 8 in capitals, padded with spaces, and no small letter stands anywhere |
| `Fat32Spelling.NameAccepted` | kernel/fat32.c:63-125 | every such name is accepted, with or without a slash in front, and stands in the entry that way |
| `Fat32Spelling.FoundByName` | kernel/fat32.c:500-564 | a file whose entry holds the bytes of a name is found by that name and by every name that differs from it in case only |
| `Fat32Names.MakeShortName` | kernel/fat32.c:63-125 | the conversion loop computes the 8.3 name that `NameStands` and `NameAccepted` describe byte by byte, and refuses exactly the names that have none |
| `Fat32Search.FindSlotOk` | kernel/fat32.c:500-564 | the scan, which stops at the end mark, finds the file of that name whenever there is one |
| `Fat32Search.WriteChunk` | kernel/fat32.c:811-847 | laying a piece over a sector extends what is in place by exactly that piece |
| `Fat32Search.WrittenContent` | kernel/fat32.c:725-870 | when all pieces are in place the content is the old start and then the buffer |
| `Fat32Steps.AllocStep` | kernel/fat32.c:302-330 | an allocated cluster belonged to nobody, and chains stay acyclic, disjoint and covering |
| `Fat32Steps.FreeStep` | kernel/fat32.c:372-389 | freeing the chain of a file keeps all others and leaves no cluster unaccounted for |
| `Fat32Steps.SectorStep` | kernel/fat32.c:199-207 | rewriting a sector of one chain touches neither the table nor any other chain |
| `Fat32Changes.GrowStep` | kernel/fat32.c:332-365 | giving a file one more cluster keeps the volume sound and changes no file |
| `Fat32Changes.DataStep` | kernel/fat32.c:811-847 | rewriting a sector of a file keeps the volume sound and every other file the same |
| `Fat32Changes.EntryStep` | kernel/fat32.c:910-920 | a change of the table with a fitting change of one slot keeps the volume sound and all other files |
| `Fat32Entries.SizeStep` | kernel/fat32.c:858-869 | storing a size cuts or extends exactly that file, within its chain |
| `Fat32Entries.HeadStep` | kernel/fat32.c:772-790 | the first cluster of an empty file, in table and entry, changes no content |
| `Fat32Entries.CreateStep` | kernel/fat32.c:922-972 | a new entry in the first free slot makes one more, empty, file and changes no other |
| `Fat32Entries.DeleteStep` | kernel/fat32.c:974-1007 | marking the entry and freeing the chain removes exactly that file |
| `Fat32Entries.NameStep` | kernel/fat32.c:1009-1038 | a new name that is not taken and not the deleted mark renames exactly that file |
| `Fat32Handles.EntryFileOk` | kernel/fat32.c:500-564 | every file of a sound volume opens, with a handle that fits entry and chain |
| `Fat32Handles.HandleReads` | kernel/fat32.c:635-723 | the bytes an up-to-date handle spans are the content of its file |
| `Fat32Writing.FinishedContent` | kernel/fat32.c:725-870 | a finished write leaves the old bytes up to the offset and then the buffer |
| `Fat32Writing.StoppedFile` | kernel/fat32.c:725-870 | a write that runs out of space keeps size, name and the bytes before the offset |
| `Fat32Marks.Determined` | kernel/fat32.c:391-416 | the device alone determines which cluster belongs to which owner |
| `Fat32Marks.CreateLeaks` | kernel/fat32.c:922-972 | creating a file whose stored name begins with the deleted mark leaves a volume that no assignment of chains makes sound |
| `Fat32Marks.CreateGood` | kernel/fat32.c:922-972 | under any other name the volume is sound and the file is there, empty, on a cleared cluster |
| `Fat32Marks.RenameMarked` | kernel/fat32.c:1009-1038 | renaming to a name with the deleted mark is sound if and only if the file has no cluster |
| `Fat32Files.ByNameUpdate` | kernel/fat32.c:725-870 | a change of one file changes the map of names at that name only |
| `Fat32Files.ByNameMove` | kernel/fat32.c:974-1038 | a file that goes or changes name moves in the map, and no other entry moves |
| `Fat32Files.FormattedOk` | kernel/fat32.c:418-491 | a freshly formatted device satisfies the volume invariant and has no files |
| `Fat32Files.NoFileIs` | kernel/fat32.c:500-564 | the directory search sees a name exactly when the map has it |
| `Fat32Driver.Fat32.constructor` | kernel/fat32.c:418-491 | a mounted sound volume satisfies the invariant |
| `Fat32Driver.Fat32.ReadFatEntry` | kernel/fat32.c:209-237 | the entry of the abstract table, or an error exactly outside the data clusters and on a free, reserved or bad link |
| `Fat32Driver.Fat32.WriteFatEntry` | kernel/fat32.c:244-273 | succeeds exactly for a data cluster and a legal value, and then writes every copy |
| `Fat32Driver.Fat32.FindFreeCluster` | kernel/fat32.c:281-294 | the cluster `FindFreeOk` describes |
| `Fat32Driver.Fat32.AllocateCluster` | kernel/fat32.c:302-330 | table and result are those `AllocateOk` is about; failure leaves the device alone |
| `Fat32Driver.Fat32.FreeClusterChain` | kernel/fat32.c:372-389 | table and result are those `FreeChainOk` is about, on any table |
| `Fat32Driver.Fat32.FileChainCapacity` | kernel/fat32.c:391-416 | the capacity `CapacityOk` describes, on any table, cyclic ones included |
| `Fat32Driver.Fat32.FindEntry` | kernel/fat32.c:510-561 | the scan over clusters, sectors and slots finds the slot `FindSlotOk` describes and leaves its sector in the buffer |
| `Fat32Driver.Fat32.OpenRoot` | kernel/fat32.c:500-564 | succeeds exactly when a file has that name, with a handle that fits it |
| `Fat32Driver.Fat32.Read` | kernel/fat32.c:635-723 | exactly the bytes the handle spans in its chain from the offset on, as many as asked for or left, also through a handle that later changes left behind; an error exactly beyond the end |
| `Fat32Driver.Fat32.AdvanceOrAllocate` | kernel/fat32.c:332-365 | the next cluster of the chain, grown if need be; failure only for lack of space, nothing lost |
| `Fat32Driver.Fat32.WriteData` | kernel/fat32.c:792-856 | the whole buffer reaches the file, or it does not fit the clusters and no more can be had; no other file changes |
| `Fat32Driver.Fat32.Write` | kernel/fat32.c:725-870 | success makes the content the old start followed by the buffer, within 32 bits; failure beyond the end changes nothing, any other failure means the bytes do not fit and no cluster can be had, and keeps the start; other files and the invariant are kept |
| `Fat32Driver.Fat32.FindFreeDirEntry` | kernel/fat32.c:880-908 | the first free slot of the directory, none exactly when there is none |
| `Fat32Driver.Fat32.Create` | kernel/fat32.c:922-972 | succeeds exactly for an unused short name with a free slot and cluster; the volume is then sound if and only if the name does not begin with the deleted mark |
| `Fat32Driver.Fat32.Delete` | kernel/fat32.c:974-1007 | succeeds exactly when the file exists, and removes exactly it |
| `Fat32Driver.Fat32.Rename` | kernel/fat32.c:1009-1038 | succeeds exactly when the old name exists and the new one does not; sound except for a marked name on a file with clusters |
| `Fat32Runs.Apply` | kernel/fat32.c:635-1038 | each operation, whatever its names, acts on the map from names to contents as its meaning says, with exact conditions of refusal, and keeps the volume sound exactly unless it leaks |
| `Fat32Runs.Run` | kernel/fat32.c:635-1038 | over any operations each step has its meaning on the map of files and the volume stays sound, up to the first operation that leaks a cluster, if any; after that one no reading of the volume is sound |
| `DirListing.Output.AppendByte` | kernel/fat32_directory.c:338-347 | the buffer is always the window of the text appended so far; refused only when the window is full |
| `DirListing.Output.AppendName` | kernel/fat32_directory.c:392-423 | appends the line of an entry, or fills the window with a start of it |
| `DirListing.FullWindow` | kernel/fat32_directory.c:496-558 | a full window is the window of every longer text, so stopping early loses nothing |
| `RootListing.LineSays` | kernel/fat32_directory.c:392-423 | the line of an entry is its base, a dot and its extension if it has one, both without trailing spaces, a slash for a directory, and a newline |
| `RootListing.LineOpens` | kernel/fat32_directory.c:392-423 | a file that was given a name is listed as that name in capitals, and the name listed leads to its entry |
| `RootListing.RootLines` | kernel/fat32_directory.c:519-557 | the listing of the root has, in slot order, one line for every file of the volume that is not a label and every subdirectory that is not a dot entry, and no other line |
| `RootListing.DeletedListing` | kernel/fat32_directory.c:519-557 | after a deletion exactly the line of that file is gone |
| `RootListing.CreatedListing` | kernel/fat32_directory.c:519-557 | after a creation there is exactly one line more, the new name in capitals |
| `RootListing.RenamedListing` | kernel/fat32_directory.c:519-557 | after a renaming exactly that line is replaced, by the new name in capitals |
| `RootListing.RetitledListing` | kernel/fat32_directory.c:519-557 | writing to a file changes no line |
| `DirListing.ListPathAt` | kernel/fat32_directory.c:519-557 | on the directory found, for every offset and capacity, exactly that window of its one full listing, which on the root is the one `RootLines` is about |
| `DirListing.WindowsJoin` | kernel/syscall_vfs.c:242-266 | adjacent windows of a text join to one window |
| `DirListing.ReadDir` | kernel/syscall_vfs.c:219-267 | chunks of 256 bytes give the same bytes as one unbounded call, for every buffer length: the listing `RootLines` is about, up to that length |
| `HeapSpec.BlocksDisjoint` | kernel/mm/kheap.c:63-73 | blocks of the heap never overlap |
| `HeapSpec.AllFreed` | kernel/mm/kheap.c:139-241 | with nothing in use there is one block per arena and free bytes equal total bytes |
| `HeapOps.SplitOk` | kernel/mm/kheap.c:113-137 | splitting keeps the arenas tiled exactly and leaves at least the requested size |
| `HeapOps.MergeOk` | kernel/mm/kheap.c:139-154 | coalescing keeps the arenas tiled exactly and everything before the block |
| `HeapOps.TakeOk` | kernel/mm/kheap.c:165-199 | taking a block keeps the heap in order and adds to the live blocks exactly one, out of free space |
| `HeapOps.ReleaseOk` | kernel/mm/kheap.c:201-222 | releasing a block keeps the heap in order, with no two free neighbours, and takes exactly that block from the live ones |
| `HeapOps.ExtendOk` | kernel/mm/kheap.c:88-111 | a new arena joins as one free block and no live block changes |
| `HeapLinks.LinkCut` | kernel/mm/kheap.c:113-137 | the pointer updates of a split link the new block into the doubly linked list |
| `HeapLinks.LinkPaste` | kernel/mm/kheap.c:139-154 | the pointer updates of a merge unlink exactly the absorbed block |
| `HeapLinks.LinkAppend` | kernel/mm/kheap.c:75-86 | the pointer updates of an append extend the list at its tail |
| `KernelHeap.NewArena` | kernel/mm/kheap.c:88-111 | a run of free pages makes an arena apart from all others |
| `KernelHeap.Heap.constructor` | kernel/mm/kheap.c:156-163 | an empty heap is in order |
| `KernelHeap.Heap.Append` | kernel/mm/kheap.c:75-86 | the new block is the last of the list and nothing else moves |
| `KernelHeap.Heap.Extend` | kernel/mm/kheap.c:88-111 | adds one free block on the lowest run of as few pages as hold the payload and its header, or fails only when there is no such run and changes nothing |
| `KernelHeap.Heap.SplitBlock` | kernel/mm/kheap.c:113-137 | headers and links after the split represent the list `SplitOk` is about |
| `KernelHeap.Heap.CoalesceNext` | kernel/mm/kheap.c:139-154 | headers and links after the merge represent the list `MergeOk` is about |
| `KernelHeap.Heap.Init` | kernel/mm/kheap.c:156-163 | adds a first arena of one page to an empty heap, unless no page is free, and does nothing to any other |
| `KernelHeap.Heap.Malloc` | kernel/mm/kheap.c:165-199 | a new live block, 16-byte aligned, large enough and with bounded waste, none of the old ones changed: the first that fits, and only without one does the heap grow, by as few pages as hold it; 0 only for size 0, overflow, or when neither a block nor pages are to be had |
| `KernelHeap.Heap.Free` | kernel/mm/kheap.c:201-222 | a block in use stops being live and free neighbours merge; null, free blocks, headers left behind by merges and addresses without a header change nothing |
| `KernelHeap.Heap.FreeBlock` | kernel/mm/kheap.c:215-221 | the list becomes the one `ReleaseOk` is about |
| `KernelHeap.Heap.CountFree` | kernel/mm/kheap.c:228-241 | the sum of the free blocks |
| `KernelHeap.HeldApart` | kernel/mm/kheap.c:165-222 | a live payload overlaps no other block and no header |
| `KernelHeap.FreedTwice` | kernel/mm/kheap.c:201-222 | a freed pointer is behind no block in use, so that freeing it again changes nothing |
| `KernelHeap.Serve` | kernel/mm/kheap.c:165-222 | every run of kmalloc and kfree keeps the heap in order; once all is freed each arena is one free block and all bytes are free |
| `XhciRing.PublishOk` | drivers/usb/xhci.c:191-232 | the store of the control word, and no earlier one, adds the block to what the controller can see |
| `XhciRing.FinishOk` | drivers/usb/xhci.c:212-232 | moving on, through the link at the end of a lap, adds and loses nothing |
| `XhciRing.LookOk` | drivers/usb/xhci.c:200-232 | a controller that follows the cycle bit takes the oldest block, and waits only when none is outstanding |
| `XhciRing.PushOk` | drivers/usb/xhci.c:212-232 | a whole push with room adds exactly one block at the end of the queue |
| `XhciRing.RoomEnough` | drivers/usb/xhci.c:212-232 | fewer than size - 2 outstanding blocks always leave room |
| `XhciRing.NoRoomStuck` | drivers/usb/xhci.c:212-232 | without room a push always leaves the controller waiting although blocks are outstanding |
| `XhciRing.LinkParked` | drivers/usb/xhci.c:212-232 | a reachable ring with a free slot but no room: the next push leaves the controller waiting |
| `XhciRing.RingIsFifo` | drivers/usb/xhci.c:191-232 | over any interleaving of stores and looks, on any number of laps, what was delivered and what the ring holds at the end is what it held and what was published, once each and in order |
| `XhciRing.LooksDeliver` | drivers/usb/xhci.c:191-232 | however the ring stands, a controller that keeps looking gets all that is outstanding, in order, and leaves the ring empty |
| `XhciRing.AllArrive` | drivers/usb/xhci.c:191-232 | every block published in a run on a fresh ring arrives, once and in order |
| `XhciRing.FreshOk` | drivers/usb/xhci.c:200-210 | a new ring holds the empty queue |
| `XhciRing.ProducerRing.constructor` | drivers/usb/xhci.c:200-210 | the ring `FreshOk` is about |
| `XhciRing.ProducerRing.Push` | drivers/usb/xhci.c:212-232 | the stores of one push leave the ring `PushOk` is about; a ring of a link alone refuses and stays as it is |
| `XhciEvents.PostOk` | drivers/usb/xhci.c:281-301 | an event posted into a free slot joins the end of the waiting queue |
| `XhciEvents.NextOk` | drivers/usb/xhci.c:281-301 | the driver takes the oldest event, and none only when none waits |
| `XhciEvents.EventsAreFifo` | drivers/usb/xhci.c:281-301 | over any interleaving what was taken and what waits in the ring at the end is what waited and what was posted, once each and in order |
| `XhciEvents.TakesAll` | drivers/usb/xhci.c:281-301 | asking as often as events wait takes exactly these and empties the ring |
| `XhciEvents.EventRing.TakeNext` | drivers/usb/xhci.c:281-301 | the code takes the event and moves as the specification `NextOk` is about |
| `Damage.ClipOk` | kernel/gui_damage.c:19-45 | clipping keeps exactly the on-screen pixels of a rectangle |
| `Damage.AbsorbCovers` | kernel/gui_damage.c:54-76 | merging keeps every pixel of the list and of the new rectangle |
| `Damage.TouchesIs` | kernel/gui_damage.c:54-76 | rectangles count as touching exactly when a pixel of one is a pixel of the other or next to one |
| `Damage.AddMerges` | kernel/gui_damage.c:8-89 | damage apart from the old is listed as it is, clipped; damage that touches some of the old makes the list no longer |
| `Damage.AddOk` | kernel/gui_damage.c:8-89 | all old and new on-screen damage stays covered, by at most 32 non-empty rectangles in bounds or the full flag |
| `Damage.AddFrugal` | kernel/gui_damage.c:8-89 | off-screen rectangles add nothing, damage stays within any box around old and new, and the full flag is set only for a whole-screen rectangle or a full list |
| `Damage.FlushOk` | kernel/irq.c:143-248 | a flush drops only pixels that a shown redraw painted; a failed or skipped one drops nothing |
| `Damage.NothingLost` | kernel/irq.c:143-248 | over every run each pixel out of date is covered and the desktop is dirty |
| `Damage.SoonClean` | kernel/irq.c:225-248 | four shown redraws in a row clear any damage |
| `Damage.Compositor.Add` | kernel/gui_damage.c:8-89 | the in-place merge leaves the list `AddOk` is about |
| `Damage.Compositor.Remove` | kernel/gui_damage.c:69-72 | shifting in place removes exactly one rectangle and keeps the order |
| `Damage.Compositor.AddAll` | kernel/gui_damage.c:91-98 | the whole screen becomes damage |
| `Damage.Compositor.Draw` | kernel/irq.c:143-178 | drawing with the reduced count leaves the damage list as it was and records what the redraw covers |
| `Damage.Compositor.ReportShown` | kernel/irq.c:180-223 | only a redraw that took place becomes one that was shown |
| `Damage.Compositor.Clear` | kernel/irq.c:225-248 | exactly the rectangles of a shown redraw leave the list |
| `Damage.Compositor.FlushDirty` | kernel/kernel.c:354-359 | draw, report and clear together are the flush `FlushOk` is about |
| `VfsPath.NormalizeOk` | kernel/vfs.c:225-291 | the result denotes the directory the component walk denotes, has no empty, `.` or `..` component, fits, and is its own normal form |
| `VfsPath.ResolveLength` | kernel/vfs.c:225-291 | a plain path is never longer than the path read, so the output bound cannot be hit |
| `VfsPath.PartsOfRender` | kernel/vfs.c:225-291 | rendering and splitting a plain path are inverse |
| `VfsLaws.ResolveWhen` | kernel/vfs.c:225-291 | a path is refused exactly when it climbs above the root at some point; otherwise it ends as deep as it went on balance |
| `VfsLaws.Cancels` | kernel/vfs.c:225-291 | a dot component and an extra slash mean nothing, and a name followed by `..` cancels, wherever in a path they stand |
| `VfsPath.NormalizePath` | kernel/vfs.c:225-291 | the loop leaves exactly the normal form, terminated; refused exactly when relative, 64 characters or longer, or leaving the root |
| `VfsPath.Up` | kernel/vfs.c:268-273 | removes exactly the last component in place |
| `OpenFileSpec.DropsKeep` | kernel/vfs.c:80-87 | dropping handles keeps the table sound |
| `OpenFileSpec.OpenOk` | kernel/vfs.c:1091-1141 | an open gives the owner a new descriptor on the normal path, with the mode asked for, which the node serves, and keeps the table sound; handles of live processes are untouched whatever happens |
| `OpenFileSpec.OpenWhen` | kernel/vfs.c:1091-1141 | succeeds exactly when a known node serves the path and mode and a descriptor and a slot are left; takes the lowest descriptor |
| `OpenFileSpec.ApplyOk` | kernel/vfs.c:1147-1236 | closing a descriptor drops, and reading, writing or seeking moves the offset of, exactly the handle of that owner and number; it succeeds exactly when there is one, and no other handle of a live process changes |
| `OpenFileSpec.MountStaticOk` | kernel/vfs.c:443-488 | mounting, into reused slots or not, leaves every handle on the path it was opened on |
| `OpenFileSpec.MountMeans` | kernel/vfs.c:443-488 | all the nodes asked for become known, or none: once the checks pass no step can fail |
| `OpenFileSpec.UnmountMeans` | kernel/vfs.c:490-509 | succeeds exactly on the path of a known node, and makes that node and no other unknown |
| `OpenFileSpec.UnmountOk` | kernel/vfs.c:490-509 | unmounting drops exactly the handles opened on that path |
| `OpenFileSpec.RunOk` | kernel/vfs.c:80-223 | in every reachable state descriptors are unique per owner and each handle designates the path it was opened on |
| `OpenFileSpec.Isolated` | kernel/vfs.c:1091-1250 | descriptor operations of one process change no handle of another live process |
| `OpenFiles.FileTable.constructor` | kernel/vfs.c:415-426 | an empty table is sound |
| `OpenFiles.FileTable.ReapDeadOwners` | kernel/vfs.c:80-87 | exactly the handles of dead owners go |
| `OpenFiles.FileTable.DropOpenFiles` | kernel/vfs.c:154-164 | exactly the handles on that node go |
| `OpenFiles.FileTable.CloseAllForPid` | kernel/vfs.c:1238-1250 | exactly the handles of that process go, and their number is returned |
| `OpenFiles.FileTable.FindCanonical` | kernel/vfs.c:428-441 | the node in use under that path |
| `OpenFiles.FileTable.FindFreeLocalFd` | kernel/vfs.c:178-191 | the lowest descriptor the owner has not in use |
| `OpenFiles.FileTable.FdAt` | kernel/vfs.c:203-223 | the handle of that owner and descriptor, after dead owners are gone |
| `OpenFiles.FileTable.UseFd` | kernel/vfs.c:1147-1236 | the state `ApplyOk` is about |
| `OpenFiles.FileTable.OpenFlags` | kernel/vfs.c:1091-1141 | the state and descriptor `OpenOk` is about |
| `OpenFiles.FileTable.UnmountStatic` | kernel/vfs.c:490-509 | the state `UnmountOk` is about |
| `OpenFiles.FileTable.MountStatic` | kernel/vfs.c:443-488 | all nodes are entered or, if any fails its checks, none; the state `MountStaticOk` is about |
| `Argv.StringAtOk` | kernel/syscall_helpers.c:162-185 | a copied string is the one at the address, up to its terminator |
| `Argv.ArgsOk` | kernel/syscall_helpers.c:187-224 | the arguments copied are the strings behind the pointers of the caller's table |
| `Argv.StringFound` | kernel/syscall_helpers.c:162-185 | a readable terminated string that fits is the one copied |
| `Argv.CallerArgsAre` | kernel/syscall_helpers.c:187-224 | the arguments copied are exactly these strings if and only if the counts are in order, each entry of the table points at them in turn, and all fit |
| `Argv.PackedAt` | kernel/syscall_helpers.c:187-224 | each packed string is found at its recorded offset, terminated |
| `Argv.CopyString` | kernel/syscall_helpers.c:162-185 | succeeds exactly when a readable terminated string fits, and copies it without touching what is before |
| `Argv.CopyArgv` | kernel/syscall_helpers.c:187-224 | succeeds exactly when every argument is readable and all fit; buffer and offsets are then the packed strings |
| `Argv.StoreWord` | kernel/panel_boot_argv.c:5-9 | stores the little-endian bytes of the word and nothing else |
| `Argv.ByteOf` | kernel/panel_boot_argv.c:5-9 | byte k of a stored word is its k-th digit to the base 256, the low one first |
| `Argv.LayoutOk` | kernel/panel_boot_argv.c:11-64 | a pointer table below packed strings reads back as the strings, in order, then null, all inside the stack and apart from the table |
| `Argv.PlaceArgv` | kernel/panel_boot_argv.c:11-64 | succeeds exactly when offsets, size and address fit; table aligned with an aligned stack top, the stack below untouched; no arguments give a null table |
| `Argv.PassArgv` | kernel/syscall_process.c:76-103 | the round trip: the new program reads exactly the caller's strings, then null; refused exactly when they are unreadable or do not fit |
| `Ipc.QueueTake` | kernel/ipc.c:106-123 | taking the first message for a process takes the head of its queue and touches no other |
| `Ipc.RoomIff` | kernel/ipc.c:51-59 | a slot is free exactly when fewer than eight messages are outstanding |
| `Ipc.OldestIsFirst` | kernel/ipc.c:61-76 | the lowest sequence number for a process marks the head of its queue |
| `Ipc.SendStored` | kernel/ipc.c:85-104 | filling any free slot appends to the queue the slots represent |
| `Ipc.ReceiveStored` | kernel/ipc.c:106-123 | emptying a slot takes exactly that message out of the queue represented |
| `Ipc.Mailboxes.constructor` | kernel/ipc.c:78-83 | no message is outstanding |
| `Ipc.Mailboxes.FindOldest` | kernel/ipc.c:61-76 | the used slot of that target with the lowest sequence number, none exactly when there is none |
| `Ipc.Mailboxes.Send` | kernel/ipc.c:85-104 | a valid message joins the end of its target's queue and no other; refused exactly when invalid or eight are outstanding |
| `Ipc.Mailboxes.Receive` | kernel/ipc.c:106-123 | the head of the target's queue, with its payload and a zeroed tail; fails exactly when that queue is empty; other queues are untouched |
| `Ipc.Mailboxes.CopyPayload` | kernel/ipc.c:22-30 | the payload and then zeros |

## Left out

- Contents of pages: zeroing of anonymous pages and stacks and the bytes of program images are not modelled; a page is its number and, for tables, its 512 entries.
- Barriers, TLB maintenance, cache maintenance, interrupt masking, context switches and all device registers.
- Table descriptors are records of their fields, with the access rules of the processor defined on these fields; the 64 raw bits of a descriptor are not encoded. A bitmap word is a sequence of 64 bits.
- Registers of a new process other than the program counter, the stack pointer, the processor state and the two argument registers.
- KernelFamily.SpawnSucceeds: three pages a page are asked for the tables, which is more than some layouts need; `SpawnNeeds` is the other direction, without the exact count of tables.
- PhysicalPages.Pmm.constructor: needs a page-aligned base and an end below 2^64, which the boot code provides; the heap also needs a base other than 0.
- Addresses of tables and pages are taken to lie below 2^48, the reach of the descriptor address field and of a four-level walk.
- The kernel identity map is an arbitrary sequence of range mappings that may fail, are never writable and executable and, for isolation, never for user mode; the linker symbols and board mappings behind it are inputs.
- During a spawn, the answers of path resolution, of the image loader, of the board mapping and of argument placement are inputs, and every answer is covered.
- Window, file and mailbox cleanup on process exit is not part of the process model; the file table's own cleanup is modelled in `OpenFiles.dfy`.
- Failing sector transfers on a FAT32 volume: the code makes no claim of crash consistency. A device is a sequence of sectors whose reads and writes succeed, on a volume that is well formed when mounted.
- Error returns inside FAT32 loops that a well-formed volume never takes (a chain that breaks off in the middle of a file, for instance) have no statement in the methods; the proofs show the value is always there.
- Fat32Driver.Fat32.Read: needs a handle that starts at the head of some present chain and does not reach beyond it; reading clusters that have been freed is not covered.
- Fat32Driver.Fat32.Write: needs a handle that fits its directory entry, as open, create and write return it; writing through a handle kept over a delete or over another write of the file is not covered.
- File names are byte strings; upper-casing is ASCII only, as in the code, and `char` is taken as an unsigned byte.
- DirListing.ListPathAt: starts at the first cluster of the directory; finding it from its path is not modelled.
- Files below the root directory keep their chains in the invariant, but path lookup in subdirectories and the VFS wrappers around the volume are not modelled.
- `fat32_readdir_path`: it refills the shared sector buffer in the middle of its scan, so agreement with the text listing does not hold as written.
- `fat32_list_root_at` repeats the listing of `fat32_list_path_at` on the root directory and would add nothing new.
- KernelHeap.Heap.Free: payload bytes are not modelled, so a header that a caller forged, or one left behind by a merge and then overwritten, is not covered.
- What callers store into heap payloads, and wrap-around of the 64-bit arena number.
- The rest of the xHCI driver: command and transfer waiting, the stash of early transfer events, doorbells, enumeration and memory barriers. The controller is any reader or writer that follows the cycle bit.
- XhciRing.ProducerRing.constructor: needs at least the block for the link; the code writes outside its storage for a size of 0.
- Pixels: a redraw is the set of rectangles it covers. Damage added between drawing and clearing does not occur within one flush of the main loop.
- Disjointness of damage rectangles: merging does not rescan earlier rectangles, so only coverage is claimed.
- Node callbacks of the file table, mount-prefix resolution and directories of the VFS; an open that enters a node through a mount is a mount followed by an open.
- Readability of user memory is a map of readable bytes; the region and page checks behind it are not modelled.
- Wrap-around of the 64-bit message sequence number.
- Compositor output, fonts, input, console, logging, boot order, bootfs and tmpfs.
