# kernelite memory management, interrupts and number formatting, in Dafny

kernelite is a small AArch64 kernel. This project models what its correctness hangs on and proves it:

- **Memory** (`Bits`, `Memory`). RAM is a sequence of 4 KiB frames of 512 words, shared by everything below. Bitmaps,
  heap descriptors and page tables are all stored in it, and are read and written through kernel pointers, that is,
  through `va_to_pa` and the current kernel base.
- **Page allocator** (`FirstFit`, `PhysicalPages`, `PageAllocator`, `PageLaws`). Ten chunks, each with a bitmap inside the
  memory it manages. Three views are tied together: bits in memory, one flag per page, and sets of frames (`Pool`).
- **Heap** (`HeapModel`, `HeapOwnership`, `Heap`, `HeapLaws`). Management pages chained by `next_page`, descriptors
  threaded by `next`; both are pointers in RAM. The abstract heap is a map from pointer to size (`Blocks`).
- **Page tables** (`Descriptors`, `TranslationTree`, `PageTables`, `TableGrowth`, `MapLaws`, `TableDump`). `WalkFrom` is the
  hardware walk; a ghost `Tree` says which frames are tables and which indices lead to each; paths of indices count what
  a series of mappings costs.
- **Kernel map and boot** (`KernelMap`, `IdMap`, `DeviceTree`, `PageSetup`, `Boot`, `QemuVirt`). The linear map of RAM, the
  identity map in its seven-page pool, the device tree's header as it is read behind the bitmaps, and the sequence from the
  first region to the freed identity map, with exact costs.
- **The whole** (`MemoryState`, `MemoryRuns`, `MemorySystem`, `Lifetime`). All of the above on one RAM, with clients that hold
  pages and blocks: a state machine (`Transition`), the laws of its runs, and the kernel class whose methods are its steps.
- **Interrupt configuration** (`Gic`) and **numbers and copying** (`Numbers`, `MemMove`), independent of the rest.

`dafny verify dfyconfig.toml` checks everything.

## Main results

- *Whole runs* (`MemorySystem.Kernel.RunAll`, `Lifetime.BootAndRun`): any sequence of region-add, region-remove,
  reserve, page_alloc, page_free (of any part of a run), kmalloc, kfree (of any pointer), map_page and client writes is a run
  of one state machine. In each of its states the frames of bitmaps, management pages, blocks, page tables and clients are
  pairwise disjoint and marked used, and once the kernel is in the high half every pointer into them is translated to the
  address that `va_to_pa` computes (`MemorySystem.PointersTranslate`). Clients' books and all translations follow from
  operations and replies alone, pinned pages from these and what was in use at each reservation; what is pinned is never
  handed out nor written (`MemoryRuns.PinnedStay`), and a word that a client wrote stays until that client overwrites or frees it
  (`MemoryRuns.WrittenPageReads`, `MemoryRuns.WrittenBlockReads`).
- *The device tree* (`PageSetup.SetupPageAllocator`, `PageSetup.TreeSurvives`, `Lifetime.TreeOutlives`): its size is read after the
  bitmaps were cleared, and nothing keeps a bitmap off it. For all contents of memory its bytes survive the setup and its size
  reads back exactly when it lies off all bitmaps' bytes. Then, if it shares no page with a bitmap or with the pools in the
  image and its offset in its first page leaves room, it is pinned and unchanged to the end of every run. `PageSetup.TreeLost`
  runs the code on one that is laid over: it is accepted, its size reads 0, and its pages are handed out.
- *What the code does not check* (`MemorySystem.AgreementIff`, `MemorySystem.Kernel.Redirect`): `map_page` grants a mapping over
  the kernel's own linear page of a bitmap, and the allocator's pointer to the bitmap then leads to another frame. A granted
  mapping keeps pointers and translations in agreement exactly when it is for no linear page of the allocator, or maps
  such a page readable and writable to itself; runs decline all mappings over linear pages, and regions that are not mapped.
- *map_page is a finite-map update* (`PageTables.Mapper.MapPage`, `MapLaws.MapEach`, `MapLaws.MappedMeans`) that writes one
  64-bit word, known in full, succeeds exactly when the addresses are aligned, the tables on the way permit it and enough pages are free, and on failure changes no
  translation.
- *The heap refines a map* over every run (`HeapLaws.RunHeap`), and freeing everything in any order restores every bitmap
  unless a kmalloc failed, which costs at most one page (`HeapLaws.RunAndFreeAll`).
- *Boot* (`Boot.Boot`, `Lifetime.PowerOn`): for all contents of memory, succeeds exactly for bootable inputs with as many free
  pages as the map needs tables, the device tree's size being the one that is read; the kernel's map then covers all of RAM
  linearly and its own tables, and freeing the identity map frees none of them. *Pool bound* (`IdMap.SetupKernelIdMap`,
  `IdMap.IdMapBound`): exact, for every image and serial address.
- *Permissions* (`Descriptors.EffectiveAsRequested`, `Descriptors.ExecutionAsRequested`): data access is exactly as requested at the
  intended exception level; execution exactly unless a table forbids it, which the code does not check. A page that is
  executable for the kernel is executable at EL0 too, though EL0 cannot read it: the code clears UXN and PXN together.
- *First fit* (`PageAllocation.PageAllocator.PageAlloc`, `KernelHeap.Heap.Kmalloc`): the two scans agree, and null is returned
  exactly when there is no fit; kmalloc takes the first fit behind the page that its descriptor may need.
- *Interrupts* (`Gic.Controller.RunCalls`): each INTID's configuration depends on its last call alone, down to the bits of the
  device's registers.
- *Numbers* (`Numbers.PrintAndParse`): `strtoul` undoes `itoa`, and each is right by itself (`Numbers.Itoa`, `Numbers.Strtoul`).

Where the code and its comments disagree, the code is followed: `map_page` rejects unaligned addresses (its header says the
low bits are ignored); the codes named in the comments of `check_table_permissions` do not match the constants; registering
an interrupt twice replaces the handler although `icu.h` says the second call fails.

## Model

| member | source | states |
|---|---|---|
| `Memory.LinearMap` | src/kernel/mem_layout/mem_layout.c:18-31 | `va_to_pa` and `pa_to_va` are inverse on all 64-bit addresses, for either base; below 2^48 neither wraps |
| `Memory.Machine.UpdateKernelBaseVa` | src/kernel/mem_layout/mem_layout.c:18-21 | after the call the base is KERNEL_BASE, and memory is as it was |
| `Memory.HighHalfAddresses` | src/kernel/mem_layout/mem_layout.c:23-31 | in the high half physical address pa, of 48 bits, is at 0xFFFF_0000_0000_0000 + pa |
| `Memory.PagesHold` | src/include/page_table/page_table.h:36 | `NUM_PAGES` is the least number of 4096-byte pages that holds so many bytes |
| `Memory.BitAddress` | src/kernel/allocator/page_allocator.c:97-104 | page i's flag is bit i % 8 of byte i / 8 of the bitmap |
| `Memory.BitAfterBit` | src/kernel/allocator/page_allocator.c:97-104 | setting or clearing one bit of a byte-packed bitmap changes that bit and no other |
| `Memory.FrameBitsEqual` | src/kernel/allocator/page_allocator.c:197-243 | the bits determine the frame, so equal bitmaps are equal memory |
| `PhysicalPages.BitmapFits` | src/kernel/allocator/page_allocator.c:145-175 | for every chunk of at least one page the bitmap has room for one bit per page in the pages reserved for it, and those lie in the chunk |
| `PhysicalPages.MarkKeepsInv` | src/kernel/allocator/page_allocator.c:79-106 | writing a run of bits moves exactly that run of frames in or out of the used set; all chunks stay consistent |
| `PhysicalPages.WriteKeepsInv` | src/kernel/allocator/page_allocator.c:197-283 | memory outside the bitmaps does not matter to the allocator |
| `PageAllocation.PageAllocator.FindChunkForAddress` | src/kernel/allocator/page_allocator.c:344-358 | finds the chunk that holds the page, or says that none does |
| `PageAllocation.PageAllocator.FindChunkWithFreePages` | src/kernel/allocator/page_allocator.c:366-386 | the first chunk with n consecutive free pages; -1 exactly when n is 0 or there is none |
| `PageAllocation.PageAllocator.PageAllocChunk` | src/kernel/allocator/page_allocator.c:197-243 | null exactly when the chunk has no such run; otherwise the lowest run is marked, and nothing else |
| `PageAllocation.PageAllocator.PageAlloc` | src/kernel/allocator/page_allocator.c:462-472 | null exactly when n is 0 or no chunk fits; otherwise the lowest run in the first fitting chunk, which was free, is marked, and no other bit of memory changes |
| `PageAllocation.PageAllocator.PageFreeChunk` | src/kernel/allocator/page_allocator.c:252-283 | clears exactly the run, cut off at the end of the chunk |
| `PageAllocation.PageAllocator.PageFree` | src/kernel/allocator/page_allocator.c:474-483 | an address in no chunk changes nothing; otherwise exactly the run, cut off at the end of its chunk, becomes free |
| `PageAllocation.PageAllocator.ReservePageChunk` | src/kernel/allocator/page_allocator.c:79-106 | accepts a range exactly when it lies in the chunk, and marks exactly it |
| `PageAllocation.PageAllocator.ReservePage` | src/kernel/allocator/page_allocator.c:451-460 | true exactly when some chunk holds the whole range; then its frames are used, and nothing else changes |
| `PageAllocation.PageAllocator.PageInitChunk` | src/kernel/allocator/page_allocator.c:118-187 | accepts a region exactly when it has a whole page above address 0 and its bitmap is clear of the image; then a chunk exists whose only used pages are its bitmap's |
| `PageAllocation.UsableIff` | src/kernel/allocator/page_allocator.c:118-187 | in plain terms: a region is accepted exactly when a page lies wholly in it, the first such page is not page 0, and no page that the bitmap takes from there on shares a byte with the image |
| `PageAllocation.PagesOfRegion` | src/kernel/allocator/page_allocator.c:118-187 | a chunk holds exactly the pages that lie wholly in its region |
| `PageAllocation.PageAllocator.AddRegion` | src/kernel/allocator/page_allocator.c:388-410 | takes the first free slot; refused exactly when the region is unusable or all ten slots, neither more nor fewer, are live |
| `PageAllocation.PageAllocator.RemoveRegion` | src/kernel/allocator/page_allocator.c:412-427 | removes exactly the chunk starting there; false exactly when there is none |
| `PageAllocation.PageAllocator.FixupPageAllocator` | src/kernel/allocator/page_allocator.c:429-449 | after the base switch every bitmap pointer again denotes its chunk's first byte, and the invariant holds again |
| `PageAllocation.BitsRestored` | src/kernel/allocator/page_allocator.c:197-283 | setting a run of clear bits and clearing it again restores memory bit for bit |
| `PageLaws.SameRequestSameAddress` | src/kernel/allocator/page_allocator.c:462-472 | the first fit is unique: the same request in the same state returns the same address |
| `PageLaws.FreeUndoesAlloc` | src/kernel/allocator/page_allocator.c:462-483 | page_alloc followed by page_free of the result restores memory, flags and sets exactly |
| `PageLaws.AllocFreeAlloc` | src/kernel/allocator/page_allocator.c:462-483 | allocate, free, allocate again: the same address, or null both times |
| `PageLaws.DumpStatusChunk` | src/kernel/allocator/page_allocator.c:290-336 | emits maximal, alternating runs that partition the chunk |
| `PageLaws.ExpandEncoded` | src/kernel/allocator/page_allocator.c:290-336 | expanding the emitted runs gives back the flags |
| `PageLaws.EncodingUnique` | src/kernel/allocator/page_allocator.c:290-336 | only one list of runs is maximal and alternating for given flags |
| `HeapModel.PageLayout` | src/kernel/allocator/kalloc.c:30-53 | 127 descriptors of 32 bytes and a link fit in 4096 bytes, the link right behind the descriptors |
| `HeapModel.MaskedSlot` | src/kernel/allocator/kalloc.c:152-160 | masking a descriptor's address gives the base of its management page |
| `KernelHeap.Heap.AllocManagementPage` | src/kernel/allocator/kalloc.c:69-89 | a zeroed page that was free, or null, and then no page is free |
| `KernelHeap.Heap.FindFreeManagementBlock` | src/kernel/allocator/kalloc.c:99-139 | reserves a descriptor that was not in use, adding a management page only when all are full |
| `KernelHeap.Heap.AddToAllocatedList` | src/kernel/allocator/kalloc.c:198-217 | the descriptor becomes the last of the list; both lists keep their shape |
| `KernelHeap.Heap.RemoveFromAllocatedList` | src/kernel/allocator/kalloc.c:227-257 | takes exactly the descriptor of that pointer off the list, or finds none and changes nothing |
| `KernelHeap.Heap.FreeManagementPageIfEmpty` | src/kernel/allocator/kalloc.c:152-191 | the page is unlinked and freed exactly when no live descriptor is in it |
| `KernelHeap.NoPointerInto` | src/kernel/allocator/kalloc.c:152-191 | no head, chain link or list link leads into a frame that is not chained, so none into a freed page |
| `KernelHeap.Heap.Kmalloc` | src/kernel/allocator/kalloc.c:259-302 | the first fit, taken behind the page a descriptor may need, or null, exactly as `KmallocFit` says; the map from pointer to size gains exactly that block; both lists stay acyclic, the list being exactly the descriptors in use; at most one chained page is empty |
| `HeapLaws.KmallocNullIff` | src/kernel/allocator/kalloc.c:259-302 | null exactly for size 0, a size above 2^64 - 4096, when all descriptors are in use and no page is free, or when (size + 4095) / 4096 pages fit nowhere once the descriptor has its page |
| `HeapLaws.RoomGrants` | src/kernel/allocator/kalloc.c:259-302 | wherever one page more is free in a row than (size + 4095) / 4096, from an empty heap or any other, kmalloc returns a block |
| `HeapLaws.SameRequestSameBlock` | src/kernel/allocator/kalloc.c:259-302 | the same request in the same state gets the same pointer, or null, and leaves the same pages in use |
| `KernelHeap.Heap.Kfree` | src/kernel/allocator/kalloc.c:304-315 | removes exactly that pointer from the map and frees its pages; an absent pointer changes nothing at all |
| `HeapOwnership.HeapPageCount` | src/kernel/allocator/kalloc.c:99-191 | heap-held pages are the sum of the block sizes in pages plus the number of management pages |
| `HeapOwnership.NothingLive` | src/kernel/allocator/kalloc.c:152-191 | with no block left at most one management page is left, and none if none was empty |
| `HeapLaws.RunHeap` | src/kernel/allocator/kalloc.c:259-315 | after any sequence of calls the live blocks are exactly what the calls and their results spell out, no pointer was handed out while live, and pages the heap does not hold, and their contents, are untouched |
| `HeapLaws.RunAndFreeAll` | src/kernel/allocator/kalloc.c:259-315 | from an empty heap, any calls and then freeing every block in any order: all bitmaps are restored if no kmalloc failed, else at most one page more is used |
| `HeapLaws.UsedDeterminesFlags` | src/kernel/allocator/page_allocator.c:197-283 | the set of used frames determines every flag of every chunk |
| `Descriptors.TableDescriptorFields` | src/kernel/page_table/page_table.c:150-206 | the address stored in a table entry reads back, and the entry is valid, a table and unrestricted |
| `Descriptors.TableInNumbers` | src/kernel/page_table/page_table.c:150-206 | below 2^48 a table descriptor is the table's address plus 3, and no other bit is set |
| `Descriptors.PartsInNumbers` | src/include/page_table/page_table.h:86-257 | the place of every part of a descriptor in the 64-bit word |
| `Descriptors.PageDescriptorFields` | src/kernel/page_table/page_table.c:792-828 | the leaf holds the address modulo 2^50, access bits, execute-never bits, access flag, memory type and shareability as requested; it is valid exactly with read permission |
| `Descriptors.PageInNumbers` | src/kernel/page_table/page_table.c:792-828 | the whole leaf as a number, for every address and request: no bit is set but those of the address and the attributes |
| `Descriptors.OutputAddressExact` | src/kernel/page_table/page_table.c:174-186 | the leaf's address is the requested one exactly when that is below 2^50 |
| `Descriptors.EffectiveIs` | src/include/page_table/page_table.h:130-190 | data access combined over all four levels: AP and APTable bits of each take away what they say, whatever the others are |
| `Descriptors.EffectiveAsRequested` | src/kernel/page_table/page_table.c:217-255 | if every table on the way passes the permission check, data access combined over all levels (section D8.4 of Arm DDI 0487) is exactly what was requested, and nothing for EL0 unless asked |
| `Descriptors.TablePermitsIff` | src/kernel/page_table/page_table.c:217-255 | the check refuses exactly the tables that would take away some of the access that is asked for |
| `Descriptors.ExecutionAtBothLevels` | src/kernel/page_table/page_table.c:801-818 | a granted readable mapping executes at EL0 exactly if execution was requested and no table on the way has UXNTable set; at EL1 exactly if also EL0 was not given write access, with PXNTable instead |
| `Descriptors.ExecutionAsRequested` | src/kernel/page_table/page_table.c:217-255 | execution is not checked against the tables: at the intended level it is as requested exactly when it was not requested, or the mapping is readable and no table on the way forbids it for that level |
| `Descriptors.ExecutionRefusedAnyway` | src/kernel/page_table/page_table.c:217-255 | for each exception level a path that passes the check for an executable mapping and cannot be executed there |
| `TranslationTree.IndicesArePage` | src/kernel/page_table/page_table.c:762-766 | the four indices are exactly address bits 47:12 |
| `TranslationTree.WalkIs` | src/kernel/page_table/page_table.c:748-831 | a translation is exactly four entries, found by bits 47:39, 38:30, 29:21 and 20:12 of the address, each in the table that the one before leads to, all ending in 0b11 |
| `TranslationTree.ReferencedOnce` | src/kernel/page_table/page_table.c:309-362 | in a well-formed tree no two entries lead to the same table |
| `TranslationTree.InstallKeepsWalks` | src/kernel/page_table/page_table.c:309-330 | installing a zeroed table changes no translation |
| `TranslationTree.LeafKeepsOthers` | src/kernel/page_table/page_table.c:792-828 | overwriting a leaf changes no translation but that of its own page |
| `PageTables.Mapper.AllocateNewTable` | src/kernel/page_table/page_table.c:309-330 | links a zeroed page that was free; fails only when no page is free, changing nothing |
| `PageTables.Mapper.GetNextLevelTable` | src/kernel/page_table/page_table.c:341-362 | follows or builds the next table; null exactly when the entry's restrictions forbid the request, or it is missing and no page is free |
| `PageTables.Mapper.MapPage` | src/kernel/page_table/page_table.c:748-831 | succeeds exactly when aligned, root non-null, permitted on the way, and as many pages are free as tables are missing; then the page's entry, and the end of its translation, is the 64-bit word that `LeafInNumbers` spells out, and every other page translates as before; otherwise no translation changes, and if only memory was lacking no page is left |
| `MapLaws.MappedMeans` | src/kernel/page_table/page_table.c:748-831 | a granted readable mapping walks to the requested address below 2^50 with the requested attributes and effective access |
| `MapLaws.MappedExecutes` | src/kernel/page_table/page_table.c:748-831 | on tables built by map_page it executes at its own level exactly as requested |
| `TableGrowth.UnrestrictedPermits` | src/kernel/page_table/page_table.c:217-255 | trees built by map_page refuse no request for its permissions |
| `MapLaws.MapEach` | src/kernel/page_table/page_table.c:748-831 | after any sequence of requests every address translates as the last request granted for its page says, and a request is refused only for misalignment or once no page is left |
| `TableGrowth.MappedPaths` | src/kernel/page_table/page_table.c:309-362 | a mapping adds exactly the tables on its way that were missing, each once |
| `KernelMap.MapMemRegion` | src/kernel/page_table/page_table.c:377-424 | succeeds exactly when the region is aligned, or empty, and as many pages are free as tables are missing; then every page of it, besides all those mapped before, is mapped linearly |
| `KernelMap.SetupKernelMap` | src/kernel/page_table/page_table.c:911-931 | succeeds exactly when there are regions, all aligned, and as many pages are free as the map needs tables; then every page of every region is mapped at KERNEL_BASE plus its address by exactly those tables |
| `KernelMap.LinearAgrees` | src/kernel/page_table/page_table.c:377-424 | the walk of a linear page agrees with `va_to_pa` after the switch: EL1 reads and writes, EL0 neither, and both execute it exactly inside the image; the leaf is the address plus 0x707, with both execute-never bits outside the image |
| `KernelMap.MapIsSelfMapped` | src/kernel/page_table/page_table.c:911-931 | every table of the map, its root included, is mapped writable by the map itself |
| `KernelMap.StaysSelfMapped` | src/kernel/page_table/page_table.c:748-831 | a later mapping elsewhere keeps it so, its new tables included |
| `KernelMap.StaysHighHalf` | src/kernel/page_table/page_table.c:748-831 | such mappings can follow each other for ever: tables stay used, and every page of the allocator stays reachable at its linear address |
| `KernelMap.HighHalfSelfMapped` | src/kernel/page_table/page_table.c:911-931 | and in each such state the map still maps all of its own tables |
| `KernelMap.AgreementKept` | src/kernel/page_table/page_table.c:748-831 | on any set of frames a granted mapping keeps pointers and walks in agreement exactly when it is for none of their linear pages or maps such a page readable and writable to itself |
| `KernelMap.MapContinuous` | src/kernel/drivers/gicv3.c:1796-1836 | refuses misaligned or empty blocks and changes nothing; otherwise succeeds exactly when as many pages are free as tables are missing, and then every page of the rounded-up block is mapped |
| `IdMap.SetupKernelIdMap` | src/kernel/page_table/page_table.c:840-909 | succeeds exactly when the addresses are aligned and at most five tables are needed below the root; then image and serial page are mapped, only the pool's frames were written and the pool's region is gone |
| `IdMap.ImageRuns` | src/kernel/page_table/page_table.c:871-890 | every page of the image off the serial page is mapped to itself with the leaf va + 0x707: EL1 reads, writes and executes it, EL0 has no data access, and it is normal memory |
| `IdMap.SerialAnswers` | src/kernel/page_table/page_table.c:892-903 | the serial page is mapped to itself for EL1 to read and write as device memory, and nobody executes it |
| `IdMap.IdMapBound` | src/include/linker/linker_defines.h:24-27 | with the serial page in the image's 512 GB slot and none of its 1 GB slots, five tables suffice exactly for an image inside one 2 MB block, and then exactly five are used |
| `PageSetup.SetupPageAllocator` | src/kernel/utils/utils.c:106-142 | succeeds exactly when the header is valid, at most ten regions are given, all usable, and the image and as many pages as the tree's size reads behind the bitmaps each lie in one; then exactly bitmaps, image and those pages are used, no bitmap shares a byte with the image, and every bit of memory is as it was or a bitmap's |
| `PageSetup.SizeIs` | src/kernel/utils/utils.c:91-104 | for all contents of memory, the size is read from bytes that were cleared and marked where they are a bitmap's, and are as the loader left them elsewhere |
| `PageSetup.TreeSurvives` | src/kernel/utils/utils.c:106-142 | for all contents of memory with a valid header, the tree's bytes survive and its size reads back exactly when its byte range misses the (pages + 7) / 8 bytes of every region's bitmap |
| `PageSetup.TreeLost` | src/kernel/utils/utils.c:91-104 | the input that fails: a tree of 256 KiB at the start of RAM is accepted, and 63 of its 64 pages are left free |
| `DeviceTree.NoMagic` | src/kernel/allocator/page_allocator.c:145-175 | whatever is reserved, no byte of a bitmap reads like the first byte of a header |
| `DeviceTree.SizeReadsBack` | src/kernel/utils/utils.c:93 | off the bitmaps the size that is read is the header's |
| `PageSetup.ReserveRange` | src/kernel/utils/utils.c:65-104 | reserves exactly the pages of the range, or fails exactly when no region holds them |
| `PageSetup.ReserveCovers` | src/kernel/utils/utils.c:65-104 | the pages reserved for a range cover all its bytes exactly when its offset in the first page leaves room; always when it starts on a page |
| `PageSetup.LastPageFree` | src/kernel/utils/utils.c:91-104 | the last page of a device tree stays free exactly when the offset of its start pushes it out, and it is RAM, no bitmap's and not the image's |
| `PageSetup.ReserveMisses` | src/kernel/utils/utils.c:91-104 | an accepted device tree whose last byte lies in a page that the allocator will hand out |
| `Boot.MapKernel` | src/kernel/main.c:275-291 | kernel map and serial page: done exactly when there are regions, everything is aligned and as many pages are free as tables are needed; then RAM is mapped linearly, the map covers itself, and no table is in the identity map's pool |
| `Boot.SerialAgrees` | src/kernel/main.c:280-291 | the serial page is at 0xFFFF_0000_0000_0000 plus its address for EL1 to read and write as device memory, and nobody executes it |
| `Boot.EnterHighHalf` | src/kernel/main.c:140-176 | base switch, fixup and page_free of the seven identity-map pages: bitmap pointers are right, the map is intact, and none of its tables is free |
| `Boot.Boot` | src/kernel/main.c:232-304 | for all contents of memory, succeeds exactly with a valid header and `Bootable` inputs, the tree's size as it is read, that leave as many pages free as the kernel's map needs tables; image and reserved tree are then as the loader left them, and the whole sequence ends with the kernel on its own map, every page of the allocator reachable through it, its tables used, and the identity map's pages free |
| `MemoryState.OffMetadata` | src/kernel/allocator/page_allocator.c:118-283 | bitmaps, management pages, blocks, tables and clients' pages are pairwise disjoint and used |
| `MemorySystem.Kernel.AllocPages` | src/kernel/allocator/page_allocator.c:462-472 | a step of the state machine: null exactly without a fit; otherwise the pages were nobody's and are the client's; heap, tables, translations and other clients stay as they are |
| `MemorySystem.Kernel.FreePages` | src/kernel/allocator/page_allocator.c:474-483 | a step: any part of a run that a client held becomes free, the rest of the run stays the client's; everything else stays |
| `MemorySystem.Kernel.Reserve` | src/kernel/allocator/page_allocator.c:451-460 | a step: granted exactly when a chunk holds the range; pages that were free are pinned for good |
| `MemorySystem.Kernel.AddRegion` | src/kernel/allocator/page_allocator.c:388-410 | a step, for a new region whose pages can be reached: its bitmap goes where nobody was |
| `MemorySystem.Kernel.RemoveRegion` | src/kernel/allocator/page_allocator.c:412-427 | a step, for a region without live pages: granted exactly when a chunk starts there; heap, tables, clients and their books stay in order |
| `MemorySystem.Kernel.Malloc` | src/kernel/allocator/kalloc.c:259-302 | a step: the first fit, or null exactly without one; a block's pages were nobody's; tables, translations, clients' pages and blocks, and all they contain, stay as they are |
| `MemorySystem.Kernel.Free` | src/kernel/allocator/kalloc.c:304-315 | a step, for any pointer at all: what is not the block's, contents included, stays as it is |
| `MemorySystem.Kernel.Map` | src/kernel/page_table/page_table.c:748-831 | a step, off the allocator's linear pages: granted exactly when aligned and enough pages are free; tables are built in nobody's pages, and every kernel pointer leads where it led |
| `MemorySystem.Kernel.Redirect` | src/kernel/page_table/page_table.c:748-831 | the input that fails: a mapping over the linear page of any chunk's bitmap is granted, ownership and the allocator's arithmetic stay as they are, and the pointer to the bitmap leads to the other frame |
| `MemorySystem.AgreementIff` | src/kernel/page_table/page_table.c:748-831 | a granted mapping keeps kernel pointers and their translation in agreement exactly when it is for no linear page of the allocator, or maps such a page readable and writable to itself |
| `MemorySystem.PointersTranslate` | src/kernel/mem_layout/mem_layout.c:23-31 | in every state of a high-half run a pointer to any byte of the allocator's pages is translated to what `va_to_pa` gives, for EL1 to read and write |
| `MemorySystem.Kernel.Write` | src/kernel/allocator/kalloc.c:259-302 | a client's write to its own page or block changes that word only |
| `MemorySystem.Kernel.Do` | src/kernel/allocator/page_allocator.c:388-483 | any operation is a step, declined exactly when the caller is not entitled to it |
| `MemorySystem.Kernel.RunAll` | src/kernel/allocator/page_allocator.c:388-483 | any sequence of operations is a run of the state machine from the state before to the state after; runs and blocks handed out and all translations are what replaying operations and replies gives, pinned pages what replaying them with the pages in use at each reservation gives |
| `MemoryRuns.RunBooks` | src/kernel/allocator/kalloc.c:259-315 | in every run the pages and blocks handed out follow from operations and replies, and the pages pinned from these and the pages in use at each reservation |
| `MemoryRuns.RunWalks` | src/kernel/page_table/page_table.c:748-831 | in every run each address translates as the last mapping granted for its page says, or as at the start |
| `MemoryRuns.StepQuiet` | src/kernel/allocator/page_allocator.c:197-283 | no operation changes a page that is no metadata and not its own to write |
| `MemoryRuns.PageWordStays` | src/kernel/allocator/page_allocator.c:197-283 | in every run a word of a client's page keeps its value until that client overwrites it or frees the page |
| `MemoryRuns.WrittenPageReads` | src/kernel/allocator/page_allocator.c:197-283 | a word that was written to a page reads back until then |
| `MemoryRuns.BlockWordStays` | src/kernel/allocator/kalloc.c:259-315 | in every run a word of a block keeps its value until it is overwritten or the block is freed |
| `MemoryRuns.WrittenBlockReads` | src/kernel/allocator/kalloc.c:259-315 | a word that was written to a block reads back until then |
| `MemoryRuns.PinnedStay` | src/kernel/allocator/page_allocator.c:451-460 | in every run a pinned page stays pinned and keeps its contents |
| `Lifetime.BootAndRun` | src/kernel/main.c:232-304 | for all contents of memory, boot succeeds exactly with a valid header and bootable inputs with enough pages, the tree's size as it is read; any operations then are a run from the state boot reached, with exact books and translations, and the pages of image and reserved tree, but for the kernel's root table and bitmap pages, are pinned and as the loader left them |
| `Lifetime.TreeOutlives` | src/kernel/main.c:232-304 | a tree off the bitmaps' and the identity map's pages, its offset leaving room, is found in full and reads to the end of every run as the loader left it |
| `QemuVirt.KernelTables` | src/kernel/page_table/page_table.c:377-424 | on QEMU's virt machine the kernel's map and the serial page need exactly 68 tables below the root |
| `QemuVirt.QemuSize` | src/kernel/utils/utils.c:93 | there a device tree behind the first page of RAM keeps its size |
| `Lifetime.PowerOn` | src/kernel/main.c:232-304 | on QEMU's virt machine, for all contents of RAM, boot succeeds exactly with a valid header, an image inside one 2 MB block off the first page of RAM, a device tree whose size, as it is read, keeps it in RAM, and 68 pages that neither these nor the bitmap use; then all of the above holds |
| `TableDump.PrintPageTableTree` | src/kernel/page_table/page_table.c:593-745 | terminates and lists exactly the lines of the table and those below it |
| `TableDump.LinesUpToIs` | src/kernel/page_table/page_table.c:593-745 | a page is listed, at the address its indices come from, exactly when following unrestricted tables from that address ends at that leaf |
| `TableDump.LinesIncrease` | src/kernel/page_table/page_table.c:593-745 | addresses strictly increase, so nothing is listed twice |
| `TableDump.ListedIff` | src/kernel/page_table/page_table.c:685-705 | a page that translates is listed exactly when no table on its way carries a restriction |
| `TableDump.DumpMemoryMap` | src/kernel/page_table/page_table.c:833-838 | on tables built by map_page the lines are exactly the pages that translate, each once |
| `Gic.LanesApart` | src/kernel/drivers/gicv3.c:865-1052 | for INTIDs below 1024 no two registers overlap and no two lanes of a register do |
| `Gic.PutGet` | src/kernel/drivers/gicv3.c:1871-2096 | a lane written reads back, and every lane of every other interrupt or family keeps its value |
| `Gic.EnableWritten` | src/kernel/drivers/gicv3.c:1980-1992 | writing one bit to a set-enable or clear-enable register sets or clears that interrupt's enable and no other |
| `Gic.RouteFields` | src/kernel/drivers/gicv3.c:2076-2096 | the route holds the four affinities modulo 256, with routing by affinity |
| `Gic.RouteInNumbers` | src/kernel/drivers/gicv3.c:2076-2096 | the route as a number: affinities 0 to 3 in bytes 0, 1, 2 and 4, and nothing else |
| `Gic.ConfigInNumbers` | src/kernel/drivers/gicv3.c:865-1052 | an interrupt's configuration by register address and bit: SGIs and PPIs at 0x80, 0xD00, 0x400 and 0x100 of the SGI frame of this core's redistributor, the others of the distributor, routes at 0x6000 |
| `Gic.Controller.ConfigureSgiPpi` | src/kernel/drivers/gicv3.c:1952-1969 | refuses INTIDs above 31 and changes nothing; otherwise applies exactly the settings: the SGI frame's registers hold group 1, modifier 0, this priority and the enable |
| `Gic.Controller.ConfigureSpi` | src/kernel/drivers/gicv3.c:2116-2133 | refuses INTIDs below 32 and changes nothing; otherwise applies exactly the settings: the distributor's registers hold group 1, modifier 0, this priority, the enable and the affinities |
| `Gic.Controller.UnconfigureSgiPpi` | src/kernel/drivers/gicv3.c:2270-2283 | the opposite settings, or nothing above 31 |
| `Gic.Controller.UnconfigureSpi` | src/kernel/drivers/gicv3.c:2398-2413 | the opposite settings, or nothing below 32 |
| `Gic.SettingsTake` | src/kernel/drivers/gicv3.c:1952-2133 | the settings make the interrupt's configuration what was asked for and leave every other configuration alone |
| `Gic.Controller.RegisterIrq` | src/kernel/drivers/gicv3.c:2489-2514 | INTIDs from 1024 on are refused without effect; otherwise the registers of this interrupt, by address and bit, hold group 1, modifier 0, priority 0xA0, the enable and route 0, its handler is this one, and all other interrupts are as before |
| `Gic.Controller.UnregisterIrq` | src/kernel/drivers/gicv3.c:2516-2533 | this interrupt is as after reset, all others as before |
| `Gic.Controller.RunCalls` | src/kernel/drivers/gicv3.c:2489-2533 | after any sequence of calls every interrupt is configured as its last call left it, or as at the start |
| `Gic.LastCallDecides` | src/kernel/drivers/gicv3.c:2489-2533 | earlier calls and calls for other interrupts make no difference |
| `Gic.AtReset` | src/kernel/drivers/gicv3.c:2262-2413 | the configuration that unregistering restores is the one at reset |
| `Numbers.Itoa` | src/kernel/utils/kprintf.c:31-55 | writes the number's digits, by character codes and places, and the terminator, and no other byte |
| `Numbers.DigitChars` | src/kernel/utils/kprintf.c:42 | digit d is written as the dth of 0123456789abcdef |
| `Numbers.DigitValues` | src/kernel/utils/string.c:150-158 | a character counts as digit v exactly if it is the vth of 0123456789abcdef or 0123456789ABCDEF |
| `Numbers.NumeralWritten` | src/kernel/utils/kprintf.c:31-55 | the numeral, by character codes: as many digits as the number's size takes, the digit of weight base^k at the kth place from the end |
| `Numbers.FitsBuffer` | src/kernel/utils/kprintf.c:31-55 | every 64-bit number in base 10 or 16 takes at most 21 bytes |
| `Numbers.NumeralMeans` | src/kernel/utils/kprintf.c:31-55 | the numeral is canonical, has digits of the base only, and its value is the number |
| `Numbers.NumeralUnique` | src/kernel/utils/kprintf.c:31-55 | a canonical digit string is the numeral of its value |
| `Numbers.Strtoul` | src/kernel/utils/string.c:133-169 | past an optional prefix reads the longest run of digits of the base, base 10 if none is given and there is no prefix, returns their value by places modulo 2^64 and where it stopped |
| `Numbers.PrintAndParse` | src/kernel/utils/string.c:133-169 | for every 64-bit number and base 2 to 16, parsing the printed buffer returns the number with the end at the terminator |
| `Numbers.PrefixedScans` | src/kernel/utils/string.c:138-144 | with 0x in front a hexadecimal numeral is read back with base 16 or 0 |
| `MemMove.MemMove` | src/kernel/utils/string.c:50-69 | for every overlap the destination holds the old source and nothing else changes |
| `MemMove.CopiedUnique` | src/kernel/utils/string.c:50-69 | that determines the result completely |

## Left out

- Device-tree parsing (`src/kernel/fdt/fdt.c`) and libfdt, which is not part of this model: the memory map, the tree's address and the verdict of `check_fdt` are inputs; that a valid header has the magic number and at least eight bytes is a premise where it matters.
- System registers, MMU enabling, assembly, TLB and caches, several cores: only the change of kernel base is modelled.
- UART, panic, exit, exception dispatch, timers and `gicv3_init`: device I/O whose claims would be easy or depend on hardware.
- All printing except what the two dumps list and what `itoa` writes; `kprintf` has no effect.
- `memset`, `memcpy`, `strlen` and the other short string helpers: only easy members.
- RAM above 2^48 bytes: there `KERNEL_BASE + pa` would wrap, and the linear map would not be one.
- Writes of whole pages (`memset` in `alloc_management_page`, `page_table_init`) are by words, and a leaf is written once rather than field by field; nothing reads it in between.
- The interrupt registers are plain storage apart from set-enable and clear-enable; the SGI enables that hardware keeps set are not modelled.
- Unchecked assumptions of the code are preconditions: regions do not start inside one another and are not registered again while live, addresses plus sizes do not wrap, the identity map's root is zero at the start, the image starts on a page, the tree's header lies in memory outside the identity map's pool, and bitmap pages are not freed.
- PageAllocation.PageAllocator.PageFree: runs that begin with a bitmap page are excluded, as no caller frees one; the code would free it and so corrupt the chunk.
- PageAllocation.PageAllocator.PageInitChunk: regions that overlap a live chunk or start where one does are excluded; the code does not check for them.
- PageAllocation.PageAllocator.AddRegion: the same.
- Gic.Controller.ConfigureSpi: INTIDs from 1024 on are excluded, as its only caller does; their registers would run into other families.
- Gic.Controller.UnconfigureSpi: the same.
- MemorySystem.Kernel.Map: mappings over the allocator's linear pages are excluded; `Redirect` shows what the code does with them.
- MemorySystem.Kernel.RemoveRegion: regions with live pages are excluded; the code does not check for them.
- MemorySystem.Kernel.AddRegion: regions that overlap live chunks or are not mapped are excluded; the code does not check for them.
- PageAllocation.PageAllocator.PageFreeChunk: as `PageFree`.
- Clients of `MemorySystem` free only pages they were given; requests to free others, or none, are declined.
- Contents of a device tree that shares a page with a bitmap but none of its bytes: that they survive is proved up to the end of the setup, not beyond.
- `MemorySystem` has one tree of page tables, the kernel's. Kernel pointers are resolved by arithmetic, which the invariant proves to agree with the tables.
- Stage 1 controls that the code leaves at reset, such as WXN and PAN, are taken to be off.
