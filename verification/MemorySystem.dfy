/** The kernel as its clients see it: every operation is a step of one state machine. */
module MemorySystem {
  import opened Bits
  import opened Memory
  import opened PhysicalPages
  import opened PageAllocation
  import opened HeapModel
  import opened HeapOwnership
  import opened KernelHeap
  import opened Descriptors
  import opened TranslationTree
  import opened PageTables
  import opened TableGrowth
  import opened KernelMap
  import opened MapLaws
  import opened MemoryState
  import opened MemoryRuns

  // ---- deciding what a caller may ask for

  /** A region that no live chunk touches. */
  predicate ClearOfChunks(chunks: seq<Chunk>, memStart: nat, memSize: nat) {
    forall k: nat :: k < |chunks| && chunks[k].initialized ==>
                  && chunks[k].memBase != memStart
                  && (memStart + memSize <= chunks[k].memBase
                      || chunks[k].memBase + chunks[k].totalPages * PAGE_SIZE <= memStart)
  }

  lemma ClearOfRegions(mem: Mem, base: nat, chunks: seq<Chunk>, rs: seq<Region>, p: Pool, memStart: nat, memSize: nat)
    requires Inv(mem, base, chunks, rs, p)
    ensures ClearOfChunks(chunks, memStart, memSize) <==> RegionClear(rs, memStart, memSize)
    ensures forall k: nat :: k < |rs| && rs[k].Absent? ==> k < |p.spans| && p.spans[k] == (0, 0)
  {
    forall k: nat | k < |rs|
      ensures k < |chunks| && k < |p.spans| && p.spans[k] == SpanOf(rs[k]) && chunks[k].initialized == rs[k].Region?
      ensures rs[k].Region? ==> chunks[k].memBase == rs[k].first * PAGE_SIZE && chunks[k].totalPages == |rs[k].flags|
    {
      KnownChunk(mem, base, chunks, rs, p, k);
      KnownSpan(mem, base, chunks, rs, p, k);
    }
    assert |rs| == |chunks|;
  }

  /** These frames are mapped linearly, as a walk of the tables finds. */
  predicate Reachable(mem: Mem, root: nat, image: Image, first: nat, n: nat) {
    forall f: nat :: first <= f < first + n ==> LinearAt(mem, root, image, f * PAGE_SIZE)
  }

  lemma ReachableFrames(mem: Mem, root: nat, image: Image, first: nat, n: nat)
    ensures Reachable(mem, root, image, first, n) <==> LinearFrames(mem, root, image, Run(first, n))
  {
    hide LinearAt;
  }

  /** The page of `va` is the linear page of no chunk. */
  predicate OffChunks(chunks: seq<Chunk>, va: nat) {
    forall k: nat :: k < |chunks| && chunks[k].initialized ==>
                  !(chunks[k].memBase <= PageOf(va) * PAGE_SIZE < chunks[k].memBase + chunks[k].totalPages * PAGE_SIZE)
  }

  lemma OffChunksIff(mem: Mem, base: nat, chunks: seq<Chunk>, rs: seq<Region>, p: Pool, va: nat)
    requires Inv(mem, base, chunks, rs, p) && |mem| <= MAX_FRAMES
    ensures OffChunks(chunks, va) <==> forall f :: f in p.managed ==> !SamePage(va, KERNEL_BASE + f * PAGE_SIZE)
  {
    UsedInRam(mem, base, chunks, rs, p);
    ManagedByChunks(mem, base, chunks, rs, p, PageOf(va));
    hide SamePage, PageOf, Inv, OffChunks;
    ChunkOf(chunks, p, va);
    forall f | f in p.managed
      ensures SamePage(va, KERNEL_BASE + f * PAGE_SIZE) <==> PageOf(va) == f
    {
      LinearFrameOf(va, f);
    }
  }

  lemma LinearFrameOf(va: nat, f: nat)
    requires f < MAX_FRAMES
    ensures SamePage(va, KERNEL_BASE + f * PAGE_SIZE) <==> PageOf(va) == f
  {
    hide SamePage, PageOf;
    SamePageIff(va, KERNEL_BASE + f * PAGE_SIZE);
    LinearPage(f * PAGE_SIZE);
  }

  lemma ChunkOf(chunks: seq<Chunk>, p: Pool, va: nat)
    requires PageOf(va) in p.managed <==>
             exists k: nat :: k < |chunks| && chunks[k].initialized
                && chunks[k].memBase <= PageOf(va) * PAGE_SIZE < chunks[k].memBase + chunks[k].totalPages * PAGE_SIZE
    ensures OffChunks(chunks, va) <==> PageOf(va) !in p.managed
  {
    hide PageOf;
  }

  lemma ManagedByChunks(mem: Mem, base: nat, chunks: seq<Chunk>, rs: seq<Region>, p: Pool, f: nat)
    requires Inv(mem, base, chunks, rs, p)
    ensures f in p.managed <==>
            exists k: nat :: k < |chunks| && chunks[k].initialized
               && chunks[k].memBase <= f * PAGE_SIZE < chunks[k].memBase + chunks[k].totalPages * PAGE_SIZE
  {
    forall k: nat | k < |chunks|
      ensures chunks[k].initialized
              && chunks[k].memBase <= f * PAGE_SIZE < chunks[k].memBase + chunks[k].totalPages * PAGE_SIZE <==>
              k < |rs| && rs[k].Holds(f)
    {
      KnownChunk(mem, base, chunks, rs, p, k);
    }
    if f in p.managed {
      var k: nat :| k < |rs| && rs[k].Holds(f);
      assert chunks[k].initialized;
    }
    if k: nat :| k < |rs| && rs[k].Holds(f) {
      assert TracksRegion(rs[k], p);
    }
  }

  /** Behind its own bitmap's pages no page of the chunk is marked. */
  predicate IdleChunk(mem: Mem, c: Chunk) {
    forall i: nat :: BitmapPages(c.totalPages) <= i < c.totalPages ==>
                  var f := c.memBase / PAGE_SIZE; f + i / BITS_PER_FRAME < |mem| && !Bit(mem, f, i)
  }

  predicate IdleChunks(mem: Mem, chunks: seq<Chunk>, memStart: nat) {
    forall k: nat :: k < |chunks| && chunks[k].initialized && chunks[k].memBase == memStart ==>
      IdleChunk(mem, chunks[k])
  }

  lemma IdleChunkIff(mem: Mem, base: nat, chunks: seq<Chunk>, rs: seq<Region>, p: Pool, k: nat)
    requires Inv(mem, base, chunks, rs, p) && k < |chunks| && k < |rs| && chunks[k].initialized
    ensures IdleChunk(mem, chunks[k]) <==> Run(rs[k].first, |rs[k].flags|) * p.used <= p.bitmaps
  {
    KnownChunk(mem, base, chunks, rs, p, k);
    assert ChunkStored(mem, base, chunks[k], rs[k]) && TracksRegion(rs[k], p);
    var first, flags, c := rs[k].first, rs[k].flags, chunks[k];
    BitmapFits(|flags|);
    assert c.memBase / PAGE_SIZE == first;
    hide Bit, BitmapPages;
    forall i: nat | i < |flags|
      ensures first + i / BITS_PER_FRAME < |mem| && Bit(mem, first, i) == flags[i]
      ensures rs[k].Holds(first + i) && (first + i in p.used <==> flags[i])
      ensures first + i in p.bitmaps <==> i < BitmapPages(|flags|)
    {
      assert rs[k].Holds(first + i) && first + i in p.managed;
    }
    if IdleChunk(mem, c) {
      forall f | f in Run(first, |flags|) && f in p.used
        ensures f in p.bitmaps
      {
        var i: nat := f - first;
        assert Bit(mem, first, i) == flags[i];
      }
    }
    if Run(first, |flags|) * p.used <= p.bitmaps {
      forall i: nat | BitmapPages(c.totalPages) <= i < c.totalPages
        ensures first + i / BITS_PER_FRAME < |mem| && !Bit(mem, first, i)
      {
        assert first + i in Run(first, |flags|);
      }
    }
  }

  lemma IdleIff(s: State, base: nat, chunks: seq<Chunk>, memStart: nat)
    requires Inv(s.mem, base, chunks, s.regions, s.pool)
    ensures IdleChunks(s.mem, chunks, memStart) <==> Idle(s, memStart)
  {
    hide IdleChunk;
    assert |chunks| == |s.regions|;
    forall k: nat | k < |chunks|
      ensures chunks[k].initialized == s.regions[k].Region?
      ensures chunks[k].initialized ==>
                && chunks[k].memBase == s.regions[k].first * PAGE_SIZE
                && (IdleChunk(s.mem, chunks[k]) <==>
                    Run(s.regions[k].first, |s.regions[k].flags|) * s.pool.used <= s.pool.bitmaps)
    {
      KnownChunk(s.mem, base, chunks, s.regions, s.pool, k);
      if chunks[k].initialized {
        IdleChunkIff(s.mem, base, chunks, s.regions, s.pool, k);
      }
    }
  }

  class Kernel {
    const m: Machine
    const pages: PageAllocator
    const heap: Heap
    const mapper: Mapper
    const root: nat
    const image: Image
    ghost var tree: Tree
    ghost var held: set<nat>
    ghost var pinned: set<nat>
    var runs: map<nat, nat>
    var blocks: map<nat, nat>

    ghost function Now(): State
      reads this, m, pages, heap
    {
      State(m.mem, m.kernelBase, image, heap.kallocPageHead, heap.allocatedHead, heap.chain, heap.live,
            pages.regions, pages.pool, tree, held, runs, pinned)
    }

    /** All parts work on the same memory, the system is intact, and the clients' books are right. */
    ghost predicate Valid()
      reads this, m, pages, heap, mapper
    {
      && pages.m == m && heap.m == m && heap.pages == pages && mapper.m == m && mapper.pages == pages
      && pages.Valid() && Intact(Now())
      && root == PageVa(m.kernelBase, tree.root)
      && FirstsDistinct(heap.live) && blocks == Blocks(m.kernelBase, heap.live)
    }

    /** Everything in use at the start, beyond bitmaps and tables, is pinned. */
    constructor (pages: PageAllocator, ghost t: Tree, root: nat, image: Image)
      requires pages.Valid() && TreeOk(pages.m.mem, t) && Unrestricted(pages.m.mem, t)
      requires t.Tables() <= pages.pool.used && t.Tables() !! pages.pool.bitmaps
      requires pages.m.kernelBase == KERNEL_BASE ==> LinearFrames(pages.m.mem, t.root, image, pages.pool.managed)
      requires root == PageVa(pages.m.kernelBase, t.root)
      ensures Valid() && fresh(heap) && fresh(mapper) && this.pages == pages && m == pages.m && tree == t
              && this.image == image
      ensures pinned == pages.pool.used - pages.pool.bitmaps - t.Tables() && runs == map[] && blocks == map[]
              && heap.live == []
    {
      hide Inv, TreeOk, Unrestricted, LinearFrames, HeapStored, Owns, Owners, Ledger, FirstsDistinct, Blocks,
           AtMostOneEmpty;
      this.pages := pages;
      m := pages.m;
      heap := new Heap(pages);
      mapper := new Mapper(pages);
      this.root := root;
      this.image := image;
      tree := t;
      held := pages.pool.used - pages.pool.bitmaps - t.Tables();
      pinned := held;
      runs, blocks := map[], map[];
      new;
      FreshSystem(Now());
      PoolFacts(m.mem, m.kernelBase, pages.chunks, pages.regions, pages.pool);
    }

    /** page_alloc for a client: what it gets was neither bitmap nor table, not the heap's and no other client's. */
    method AllocPages(n: nat) returns (pa: nat)
      requires Valid()
      modifies this, pages`regions, pages`pool, m`mem
      ensures Valid() && Transition(old(Now()), Op.AllocPages(n), At(pa), Now())
      ensures pa != 0 ==> Run(pa / PAGE_SIZE, n) <= old(pages.pool).Free() && pa / PAGE_SIZE !in old(runs)
      ensures Onward(old(Now()), Now()) && SameWalks(old(m.mem), m.mem, tree.root)
    {
      hide Inv, Intact, PagesTaken, NoFit, FirstsDistinct, Blocks, SameWalks, Onward;
      ghost var s := Now();
      RootInRam(s);
      pa := pages.PageAlloc(n);
      if pa != PHYS_ADDR_NULL {
        held := held + Run(pa / PAGE_SIZE, n);
        runs := runs[pa / PAGE_SIZE := n];
        TakeKeeps(s, Now(), n, pa);
      }
    }

    /** page_free of pages `i .. i + n` of a run that a client was given. */
    method FreePages(f: nat, i: nat, n: nat)
      requires Valid() && f in runs && n > 0 && i + n <= runs[f]
      modifies this, pages`regions, pages`pool, m`mem
      ensures Valid() && Transition(old(Now()), Op.FreePages(f, i, n), Done, Now())
      ensures Onward(old(Now()), Now()) && SameWalks(old(m.mem), m.mem, tree.root)
    {
      hide Inv, Intact, FramesReturned, PagesReturned, Held, FirstsDistinct, Blocks, SameWalks, Onward, FreedPart;
      ghost var s := Now();
      UsedInRam(m.mem, m.kernelBase, pages.chunks, pages.regions, pages.pool);
      Returnable(s, f, i, n);
      HeldThere(m.mem, m.kernelBase, pages.chunks, pages.regions, pages.pool, f + i);
      pages.PageFree((f + i) * PAGE_SIZE, n);
      held := held - Run(f + i, n);
      runs := FreedPart(runs, f, i, n);
      ReturnKeeps(s, Now(), f, i, n);
    }

    /** reserve_page: pages that were free are pinned. */
    method Reserve(start: nat, n: nat) returns (ok: bool)
      requires Valid() && start + n * PAGE_SIZE < ADDRESS_SPACE
      modifies this, pages`regions, pages`pool, m`mem
      ensures Valid() && Transition(old(Now()), Op.Reserve(start, n), if ok then Done else Failed, Now())
      ensures Onward(old(Now()), Now()) && SameWalks(old(m.mem), m.mem, tree.root)
    {
      hide Inv, Intact, PagesReserved, FirstsDistinct, Blocks, ReserveFits, SameWalks, Onward;
      ghost var s := Now();
      RootInRam(s);
      ok := pages.ReservePage(start, n);
      if ok {
        ghost var run := Run(start / PAGE_SIZE, n);
        held, pinned := held + (run - s.pool.used), pinned + (run - s.pool.used);
        ReserveKeeps(s, Now(), start, n);
      }
    }

    /** page_allocator_add_region, for a region no live chunk touches and whose pages can be reached. */
    method AddRegion(memStart: nat, memSize: nat, check: bool, kernel: Image) returns (ok: bool)
      requires Valid() && Entitled(Now(), Op.AddRegion(memStart, memSize, check, kernel))
      modifies this, pages, m`mem
      ensures Valid()
      ensures Transition(old(Now()), Op.AddRegion(memStart, memSize, check, kernel), if ok then Done else Failed, Now())
      ensures Onward(old(Now()), Now()) && SameWalks(old(m.mem), m.mem, tree.root)
    {
      hide Inv, Intact, RegionUsable, RegionRefused, RegionClear, FirstsDistinct, Blocks, SameWalks, Onward,
           LinearFrames;
      ghost var s, rs := Now(), pages.regions;
      ClearOfRegions(m.mem, m.kernelBase, pages.chunks, rs, s.pool, memStart, memSize);
      AllConsistent(m.mem, m.kernelBase, pages.chunks, rs, s.pool);
      ok := pages.AddRegion(memStart, memSize, check, kernel);
      if ok {
        ghost var k: nat :| RegionAdded(rs, s.pool, s.mem, pages.regions, pages.pool, m.mem, k, memStart, memSize)
                         && forall j: nat :: j < k ==> rs[j].Region?;
        assert RegionJoined(s, Now(), k, memStart, memSize);
        AddKeeps(s, Now(), k, memStart, memSize);
      } else {
        RefusedFrame(rs, s.pool, s.mem, pages.regions, pages.pool, m.mem, memStart, memSize);
        assert RegionRejected(s, Now(), memStart, memSize);
        RejectKeeps(s, Now(), memStart, memSize);
      }
    }

    /** page_allocator_remove_region, of a region in which no page is in use but the bitmap's own. */
    method RemoveRegion(memStart: nat) returns (ok: bool)
      requires Valid() && Idle(Now(), memStart)
      modifies this, pages`chunks, pages`regions, pages`pool
      ensures Valid() && Transition(old(Now()), Op.RemoveRegion(memStart), if ok then Done else Failed, Now())
      ensures Onward(old(Now()), Now()) && SameWalks(old(m.mem), m.mem, tree.root)
    {
      hide Inv, Intact, FirstsDistinct, Blocks, SameWalks, Onward;
      ghost var s, rs, chunks := Now(), pages.regions, pages.chunks;
      RootInRam(s);
      ok := pages.RemoveRegion(memStart);
      if ok {
        ghost var k: nat :| RegionRemoved(rs, s.pool, pages.regions, pages.pool, k, memStart);
        KnownSpan(s.mem, s.base, chunks, rs, s.pool, k);
        assert RegionGone(s, Now(), k, memStart);
        RemoveKeeps(s, Now(), k, memStart);
      }
    }

    /** kmalloc */
    method Malloc(size: nat) returns (ptr: nat)
      requires Valid() && size <= SIZE_MAX
      modifies this, heap, pages`regions, pages`pool, m`mem
      ensures Valid() && Transition(old(Now()), Op.Malloc(size), At(ptr), Now())
      ensures blocks == if ptr == 0 then old(blocks) else old(blocks)[ptr := size]
      ensures ptr != 0 ==>
                ptr !in old(blocks)
                  && Run(VaToPa(m.kernelBase, ptr) / PAGE_SIZE, NumPages(size)) !! old(pages.pool.used)
      ensures ClientsKept(old(Now()), Now())
      ensures Onward(old(Now()), Now()) && SameWalks(old(m.mem), m.mem, tree.root)
    {
      hide Inv, Intact, HeapStored, Owns, AtMostOneEmpty, BlockDenied, BlockGranted, KmallocFit, FirstsDistinct, Blocks,
           SameWalks, Onward, ClientsKept;
      ghost var s, rs := Now(), pages.regions;
      HeapReady(s);
      ptr := heap.Kmalloc(size);
      SpansFromChunks(s.mem, m.mem, s.base, pages.chunks, rs, s.pool, pages.regions, pages.pool);
      UsedInRam(m.mem, m.kernelBase, pages.chunks, pages.regions, pages.pool);
      if ptr == 0 {
        assert BlockRefused(s, Now(), size);
        DeniedSystem(s, Now(), size);
      } else {
        assert BlockMade(s, Now(), size, ptr);
        GrantedSystem(s, Now(), size, ptr);
        blocks := blocks[ptr := size];
      }
    }

    /** kfree of any pointer at all. */
    method Free(ptr: nat)
      requires Valid()
      modifies this, heap, pages`regions, pages`pool, m`mem
      ensures Valid() && Transition(old(Now()), Op.Free(ptr), Done, Now())
      ensures blocks == old(blocks) - {ptr}
      ensures ClientsKept(old(Now()), Now())
      ensures Onward(old(Now()), Now()) && SameWalks(old(m.mem), m.mem, tree.root)
    {
      hide Inv, Intact, HeapStored, Owns, AtMostOneEmpty, BlockFreed, FirstsDistinct, Blocks, SameWalks, Onward,
           ClientsKept;
      ghost var s, rs := Now(), pages.regions;
      HeapReady(s);
      heap.Kfree(ptr);
      if ptr in blocks {
        SpansFromChunks(s.mem, m.mem, s.base, pages.chunks, rs, s.pool, pages.regions, pages.pool);
        assert BlockGone(s, Now(), ptr);
        FreedSystem(s, Now(), ptr);
      } else {
        SameHeads(s.mem, s.base, s.chain, s.live, s.head, s.first, heap.kallocPageHead, heap.allocatedHead);
        assert Now() == s;
        NothingKept(s);
      }
      blocks := blocks - {ptr};
    }

    /** map_page on the kernel's tree, off the linear pages of the allocator. */
    method Map(va: nat, pa: nat, perms: Permissions, memType: MemType) returns (ok: bool)
      requires Valid() && OffLinear(Now(), va)
      modifies this, pages`regions, pages`pool, m`mem
      ensures Valid() && Transition(old(Now()), Op.Map(va, pa, perms, memType), if ok then Done else Failed, Now())
      ensures Onward(old(Now()), Now()) && runs == old(runs) && blocks == old(blocks)
    {
      hide LeafInNumbers, Inv, Intact, TreeOk, Mapped, NotMapped, PathPermits, Missing, FirstsDistinct, Blocks,
           OffLinear, Onward;
      ghost var s := Now();
      TreeReady(s, va, perms);
      ghost var t';
      ok, t' := mapper.MapPage(root, va, pa, perms, memType, tree);
      tree := t';
      assert MapTried(s, Now(), va, pa, perms, memType, ok);
      MapKeeps(s, Now(), va, pa, perms, memType, ok);
      RootStays(s, Now());
    }

    /** The same on the linear page of a chunk's bitmap: it is granted, ownership and the page allocator's arithmetic
      know nothing of it, but the pointer to the bitmap now leads to another frame. */
    method Redirect(c: nat, pa: nat)
      requires Valid() && m.kernelBase == KERNEL_BASE && c < |pages.chunks| && pages.chunks[c].initialized
      requires pa % PAGE_SIZE == 0 && pa < 0x4_0000_0000_0000 && pa != pages.chunks[c].memBase
      modifies this, pages`regions, pages`pool, m`mem
      ensures pages.Valid() && System(Now()) && !Valid()
      ensures tree.root < |m.mem| && |Walk(m.mem, tree.root, pages.chunks[c].bitmap)| == 4
      ensures OutputAddress(Walk(m.mem, tree.root, pages.chunks[c].bitmap)[3]) == pa != VaToPa(m.kernelBase,
          pages.chunks[c].bitmap)
    {
      hide LeafInNumbers, Inv, System, Linear, TreeOk, Mapped, NotMapped, PathPermits, FirstsDistinct, Blocks, SamePage,
           Walk, OutputAddress, Missing, Onward, VaToPa, PointerAgrees;
      ghost var s, f := Now(), pages.chunks[c].memBase / PAGE_SIZE;
      var bitmap, perms := pages.chunks[c].bitmap, Permissions(true, true, false, false);
      BitmapPage(s, m.mem, m.kernelBase, pages.chunks, pages.regions, pages.pool, c);
      TreeReady(s, bitmap, perms);
      NoneMissing(s, f);
      var ok;
      ghost var t';
      ok, t' := mapper.MapPage(root, bitmap, pa, perms, NORMAL, tree);
      tree := t';
      assert MapTried(s, Now(), bitmap, pa, perms, NORMAL, ok);
      MapSystem(s, Now(), bitmap, pa, perms, NORMAL, ok);
      Redirected(s, Now(), pa, perms, f);
    }

    /** A client writes word `j` of frame `f`, a page of its own: nothing but that word changes. */
    method Write(va: nat, w: Word, ghost f: nat, ghost j: nat)
      requires Valid() && f < |m.mem| && j < 512 && VaToPa(m.kernelBase, va) == f * PAGE_SIZE + 8 * j
      requires f in held || exists i: nat :: i < |heap.live| && f in heap.live[i].Frames()
      modifies m`mem
      ensures Valid() && WordWritten(old(Now()), Now(), f, j, w)
      ensures Onward(old(Now()), Now()) && SameWalks(old(m.mem), m.mem, tree.root)
    {
      hide Inv, Intact, FirstsDistinct, Blocks, SameWalks, Onward;
      ghost var s := Now();
      WriteKeeps(s, s.(mem := m.mem[f := m.mem[f][j := w]]), f, j, w);
      pages.StoreWord(va, w, f, j);
    }

    /** Page `i` of a run, word `j`. */
    method WritePage(first: nat, i: nat, j: nat, w: Word)
      requires Valid() && first in runs && i < runs[first] && j < 512
      modifies m`mem
      ensures Valid() && Transition(old(Now()), Op.WritePage(first, i, j, w), Done, Now())
      ensures Onward(old(Now()), Now()) && SameWalks(old(m.mem), m.mem, tree.root)
    {
      hide Inv, Intact, FirstsDistinct, Blocks, SameWalks, Onward;
      UsedInRam(m.mem, m.kernelBase, pages.chunks, pages.regions, pages.pool);
      RunFrame(Now(), first, i, j);
      Write(PaToVa(m.kernelBase, (first + i) * PAGE_SIZE) + 8 * j, w, first + i, j);
    }

    /** Page `i` of a block, word `j`. */
    method WriteBlock(ptr: nat, i: nat, j: nat, w: Word)
      requires Valid() && ptr in blocks && i < NumPages(blocks[ptr]) && j < 512
      modifies m`mem
      ensures Valid() && Transition(old(Now()), Op.WriteBlock(ptr, i, j, w), Done, Now())
      ensures Onward(old(Now()), Now()) && SameWalks(old(m.mem), m.mem, tree.root)
    {
      hide Inv, Intact, FirstsDistinct, VaToPa, NumPages, Blocks, HeapStored, Owns, AtMostOneEmpty, PageVa, SameWalks,
           Onward;
      UsedInRam(m.mem, m.kernelBase, pages.chunks, pages.regions, pages.pool);
      HeapReady(Now());
      ghost var k := BlockEntry(m.kernelBase, heap.live, ptr);
      BlockFrame(m.kernelBase, heap.chain, heap.live, pages.pool, |m.mem|, k, i);
      ghost var first := heap.live[k].first;
      BlockAddress(m.kernelBase, first, i, j, |m.mem|);
      Write(ptr + i * PAGE_SIZE + 8 * j, w, first + i, j);
    }

    /** One operation; one the caller has no right to ask for is declined. */
    method Do(op: Op) returns (reply: Reply)
      requires Valid()
      modifies this, heap, pages, m`mem
      ensures Valid() && Transition(old(Now()), op, reply, Now()) && Onward(old(Now()), Now())
    {
      hide Inv, Intact, FirstsDistinct, Blocks, ClearOfChunks, Now, Onward, RegionClear, OffChunks, OffLinear,
           Reachable, LinearFrames, SameWalks, SameOutside, NoFit, NumPages;
      ghost var s := Now();
      MayAsk(op);
      NothingOnward(s);
      match op {
        case AddRegion(memStart, memSize, check, kernel) =>
          var first, n := FirstFrame(memStart), WholePages(memStart, memSize);
          if memStart + memSize <= |m.mem| * PAGE_SIZE && ClearOfChunks(pages.chunks, memStart, memSize)
             && (m.kernelBase == KERNEL_BASE ==>
                 Reachable(m.mem, VaToPa(m.kernelBase, root) / PAGE_SIZE, image, first, n)) {
            var ok := AddRegion(memStart, memSize, check, kernel);
            return if ok then Done else Failed;
          }
        case RemoveRegion(memStart) =>
          if IdleChunks(m.mem, pages.chunks, memStart) {
            var ok := RemoveRegion(memStart);
            return if ok then Done else Failed;
          }
        case Reserve(start, n) =>
          if start + n * PAGE_SIZE < ADDRESS_SPACE {
            var ok := Reserve(start, n);
            return if ok then Done else Failed;
          }
        case AllocPages(n) =>
          var pa := AllocPages(n);
          return At(pa);
        case FreePages(f, i, n) =>
          if f in runs && n > 0 && i + n <= runs[f] {
            FreePages(f, i, n);
            return Done;
          }
        case Malloc(size) =>
          if size <= SIZE_MAX {
            var ptr := Malloc(size);
            return At(ptr);
          }
        case Free(ptr) =>
          Free(ptr);
          return Done;
        case Map(va, pa, perms, memType) =>
          if m.kernelBase == KERNEL_BASE ==> OffChunks(pages.chunks, va) {
            var ok := Map(va, pa, perms, memType);
            return if ok then Done else Failed;
          }
        case WritePage(first, i, j, w) =>
          if first in runs && i < runs[first] && j < 512 {
            WritePage(first, i, j, w);
            return Done;
          }
        case WriteBlock(ptr, i, j, w) =>
          if ptr in blocks && i < NumPages(blocks[ptr]) && j < 512 {
            WriteBlock(ptr, i, j, w);
            return Done;
          }
      }
      return Declined;
    }

    /** What the clients' books say about a request is what they are entitled to. */
    lemma MayAsk(op: Op)
      requires Valid()
      ensures Entitled(Now(), op) <==> Allowed(op)
    {
      hide Inv, Intact, TreeOk, LinearAt, SamePage, Blocks, FirstsDistinct, RegionClear, ClearOfChunks, OffChunks,
           Reachable, LinearFrames, NumPages;
      var s := Now();
      match op
      case AddRegion(memStart, memSize, check, kernel) =>
        ClearOfRegions(m.mem, m.kernelBase, pages.chunks, pages.regions, pages.pool, memStart, memSize);
        ReachableFrames(m.mem, tree.root, image, FirstFrame(memStart), WholePages(memStart, memSize));
        RootAddress(s);
      case RemoveRegion(memStart) =>
        IdleIff(s, m.kernelBase, pages.chunks, memStart);
      case Map(va, pa, perms, memType) =>
        OffChunksIff(m.mem, m.kernelBase, pages.chunks, pages.regions, pages.pool, va);
      case _ =>
    }

    /** The request passes the checks of `Do`. */
    ghost predicate Allowed(op: Op)
      reads this, m, pages
    {
      match op
      case AddRegion(memStart, memSize, check, kernel) =>
        && memStart + memSize <= |m.mem| * PAGE_SIZE && ClearOfChunks(pages.chunks, memStart, memSize)
        && (m.kernelBase == KERNEL_BASE ==>
              Reachable(m.mem, VaToPa(m.kernelBase, root) / PAGE_SIZE, image, FirstFrame(memStart),
                        WholePages(memStart, memSize)))
      case RemoveRegion(memStart) => IdleChunks(m.mem, pages.chunks, memStart)
      case Reserve(start, n) => start + n * PAGE_SIZE < ADDRESS_SPACE
      case AllocPages(n) => true
      case FreePages(f, i, n) => f in runs && n > 0 && i + n <= runs[f]
      case Malloc(size) => size <= SIZE_MAX
      case Free(ptr) => true
      case Map(va, pa, perms, memType) => m.kernelBase == KERNEL_BASE ==> OffChunks(pages.chunks, va)
      case WritePage(first, i, j, w) => first in runs && i < runs[first] && j < 512
      case WriteBlock(ptr, i, j, w) => ptr in blocks && i < NumPages(blocks[ptr]) && j < 512
    }

    /** Any sequence of operations from any valid state is a run of the state machine; what the clients hold, what is
      pinned and how every address translates follow from the operations and their replies. */
    method RunAll(ops: seq<Op>) returns (replies: seq<Reply>, ghost trace: seq<State>)
      requires Valid()
      modifies this, heap, pages, m`mem
      ensures Valid() && Onward(old(Now()), Now())
      ensures IsRun(ops, replies, trace) && trace[0] == old(Now()) && trace[|ops|] == Now()
      ensures runs == RunsAfter(ops, replies, old(runs)) && blocks == BlocksAfter(ops, replies, old(blocks))
      ensures pinned == PinnedAfter(ops, replies, trace)
      ensures Remembers(old(m.mem), m.mem, old(tree).root, RequestsOf(ops), GrantedOf(ops, replies))
    {
      hide Valid, Transition, Now, Onward, Sane, IsRun, RunsAfter, BlocksAfter, PinnedAfter, Remembers;
      ghost var s := Now();
      BooksNow();
      SaneNow();
      NothingOnward(s);
      replies, trace := [], [s];
      NoSteps(s);
      var i := 0;
      while i < |ops|
        invariant i <= |ops| && Valid() && |replies| == i && |trace| == i + 1
        invariant IsRun(ops[..i], replies, trace) && trace[0] == s && trace[i] == Now() && Onward(s, Now())
      {
        ghost var s1 := Now();
        var reply := Do(ops[i]);
        SaneNow();
        OnwardTrans(s, s1, Now());
        RunNext(ops[..i], replies, trace, ops[i], reply, Now());
        assert ops[..i + 1] == ops[..i] + [ops[i]];
        replies, trace := replies + [reply], trace + [Now()];
        i := i + 1;
      }
      assert ops[..i] == ops;
      RunBooks(ops, replies, trace);
      RunWalks(ops, replies, trace);
      BooksNow();
    }

    /** The clients' books are those of the state. */
    lemma BooksNow()
      requires Valid()
      ensures Now().runs == runs && Now().pinned == pinned && Now().mem == m.mem && Now().tree == tree
      ensures FirstsDistinct(Now().live) && blocks == Blocks(Now().base, Now().live)
    {
    }

    lemma FieldsNow()
      ensures var s := Now();
              && s.mem == m.mem && s.base == m.kernelBase && s.image == image && s.pool == pages.pool && s.tree == tree
              && s.pinned == pinned && s.runs == runs && s.live == heap.live
    {
    }

    lemma SaneNow()
      requires Valid()
      ensures Sane(Now())
    {
      UsedInRam(m.mem, m.kernelBase, pages.chunks, pages.regions, pages.pool);
    }
  }

  lemma NoSteps(s: State)
    requires Sane(s)
    ensures IsRun([], [], [s])
  {
    hide Sane;
  }

  lemma NothingOnward(s: State)
    ensures Onward(s, s)
  {
  }

  lemma OnwardTrans(s: State, s1: State, s2: State)
    requires Onward(s, s1) && Onward(s1, s2)
    ensures Onward(s, s2)
  {
  }

  // ---- facts about intact states

  lemma FreshSystem(s: State)
    requires s.chain == [] && s.live == [] && s.runs == map[] && s.pinned == s.held
    requires s.held == s.pool.used - s.pool.bitmaps - s.tree.Tables()
    requires s.tree.Tables() <= s.pool.used && s.tree.Tables() !! s.pool.bitmaps
    ensures Owners(s.pool, s.chain, s.live, s.tree, s.held) && Ledger(s.pool, s.held, s.runs, s.pinned)
    ensures FirstsDistinct(s.live) && Blocks(s.base, s.live) == map[]
  {
    assert forall f :: !InHeap([], [], f);
  }

  lemma RootInRam(s: State)
    requires Intact(s)
    ensures s.tree.root < |s.mem| && SameWalks(s.mem, s.mem, s.tree.root) && Onward(s, s)
  {
  }

  lemma Returnable(s: State, f: nat, i: nat, n: nat)
    requires Intact(s) && f in s.runs && n > 0 && i + n <= s.runs[f]
    requires |s.mem| <= MAX_FRAMES && forall g :: g in s.pool.used ==> g < |s.mem|
    ensures (f + i) * PAGE_SIZE + n * PAGE_SIZE < ADDRESS_SPACE && (f + i) * PAGE_SIZE / PAGE_SIZE == f + i
    ensures f + i !in s.pool.bitmaps && s.pool.Within(f + i, n) && f + i in s.pool.used
  {
    hide HeapOk, TreeOk, Unrestricted, Linear;
    assert f + i in Run(f, s.runs[f]) && f + i + n - 1 in Run(f, s.runs[f]);
    WithinPart(s.pool, f, s.runs[f], f + i, n);
  }

  lemma HeldThere(mem: Mem, base: nat, chunks: seq<Chunk>, rs: seq<Region>, p: Pool, f: nat)
    requires Inv(mem, base, chunks, rs, p) && f in p.used
    ensures Held(rs, f)
  {
  }

  lemma AllConsistent(mem: Mem, base: nat, chunks: seq<Chunk>, rs: seq<Region>, p: Pool)
    requires Inv(mem, base, chunks, rs, p)
    ensures Consistent(rs, p)
  {
  }

  lemma RefusedFrame(rs: seq<Region>, p: Pool, mem: Mem, rs': seq<Region>, p': Pool, mem': Mem, memStart: nat,
                     memSize: nat)
    requires RegionRefused(rs, p, mem, rs', p', mem', memStart, memSize)
    ensures rs' == rs && p' == p
  {
  }

  lemma HeapReady(s: State)
    requires Intact(s)
    ensures HeapStored(s.mem, s.base, s.head, s.first, s.chain, s.live, LiveSlots(s.live))
    ensures Owns(s.chain, s.live, s.pool) && AtMostOneEmpty(s.chain, s.live)
    ensures s.tree.root < |s.mem|
  {
  }

  /** What clients hold, pages and surviving blocks, reads as before. */
  ghost predicate ClientsKept(s: State, s': State) {
    && |s'.mem| == |s.mem|
    && (forall f: nat :: f in s.held && f < |s.mem| ==> s'.mem[f] == s.mem[f])
    && forall e, f: nat :: e in s.live && e in s'.live && f in e.Frames() && f < |s.mem| ==> s'.mem[f] == s.mem[f]
  }

  lemma NothingKept(s: State)
    requires Intact(s)
    ensures ClientsKept(s, s) && Onward(s, s) && SameWalks(s.mem, s.mem, s.tree.root)
  {
  }

  /** The heap's own writes go to bitmaps and management pages only. */
  lemma HeapClients(s: State, s': State, written: seq<nat>)
    requires Intact(s) && Intact(s') && HeapOnly(s, s') && s'.pool.bitmaps == s.pool.bitmaps
    requires SameOutside(s.mem, s'.mem, s.pool.bitmaps + Members(written))
             && (written == s.chain || written == s'.chain)
    ensures ClientsKept(s, s')
  {
    hide HeapOk, TreeOk, Unrestricted, Ledger, Linear, Owners;
    ClientFrames(s);
    ClientFrames(s');
  }

  lemma ClientFrames(s: State)
    requires Intact(s)
    ensures s.held !! s.pool.bitmaps + Members(s.chain)
    ensures forall e :: e in s.live ==> e.Frames() !! s.pool.bitmaps + Members(s.chain)
  {
    hide TreeOk, Unrestricted, Ledger, Linear, HeapStored, AtMostOneEmpty;
    OffMetadata(s.pool, s.chain, s.live, s.tree, s.held);
    forall e | e in s.live
      ensures e.Frames() !! s.pool.bitmaps + Members(s.chain)
    {
      var i: nat :| i < |s.live| && s.live[i] == e;
    }
  }

  lemma DeniedSystem(s: State, s': State, size: nat)
    requires Intact(s) && BlockRefused(s, s', size)
             && HeapOk(s'.mem, s.base, s'.head, s'.first, s'.chain, s'.live, s'.pool)
    requires s'.pool.spans == s.pool.spans && s'.pool.bitmaps <= s'.pool.used <= s'.pool.managed == s.pool.managed
    ensures Intact(s') && Onward(s, s') && SameWalks(s.mem, s'.mem, s.tree.root) && s'.live == s.live
            && ClientsKept(s, s')
  {
    hide Intact, HeapOk, KmallocFit;
    HeapKeeps(s, s', s'.chain);
    HeapClients(s, s', s'.chain);
  }

  lemma GrantedSystem(s: State, s': State, size: nat, ptr: nat)
    requires Intact(s) && BlockMade(s, s', size, ptr)
             && HeapOk(s'.mem, s.base, s'.head, s'.first, s'.chain, s'.live, s'.pool)
    requires s.base == 0 || s.base == KERNEL_BASE
    requires s'.pool.spans == s.pool.spans && s'.pool.bitmaps <= s'.pool.used <= s'.pool.managed == s.pool.managed
    requires |s'.mem| <= MAX_FRAMES && forall f :: f in s'.pool.used ==> f < |s'.mem|
    ensures Intact(s') && Onward(s, s') && SameWalks(s.mem, s'.mem, s.tree.root) && ClientsKept(s, s')
    ensures Run(VaToPa(s.base, ptr) / PAGE_SIZE, NumPages(size)) !! s.pool.used
  {
    hide Intact, HeapStored, AtMostOneEmpty;
    HeapKeeps(s, s', s'.chain);
    HeapClients(s, s', s'.chain);
    var e := s'.live[|s.live|];
    assert EntryOwned(e, s'.pool) && e.first in e.Frames();
    assert VaToPa(s.base, ptr) == e.first * PAGE_SIZE;
  }

  lemma FreedSystem(s: State, s': State, ptr: nat)
    requires Intact(s) && BlockGone(s, s', ptr) && HeapOk(s'.mem, s.base, s'.head, s'.first, s'.chain, s'.live, s'.pool)
    requires s'.pool.spans == s.pool.spans && s'.pool.bitmaps <= s'.pool.used <= s'.pool.managed == s.pool.managed
    ensures Intact(s') && Onward(s, s') && SameWalks(s.mem, s'.mem, s.tree.root) && ClientsKept(s, s')
  {
    hide Intact, HeapOk;
    HeapKeeps(s, s', s.chain);
    HeapClients(s, s', s.chain);
  }

  /** The same lists have the same heads. */
  lemma SameHeads(mem: Mem, base: nat, chain: seq<nat>, live: seq<Entry>, head: nat, first: nat, head': nat,
                  first': nat)
    requires HeapStored(mem, base, head, first, chain, live, LiveSlots(live))
             && HeapStored(mem, base, head', first', chain, live, LiveSlots(live))
    ensures head' == head && first' == first
  {
  }

  lemma TreeReady(s: State, va: nat, perms: Permissions)
    requires Intact(s)
    ensures TreeOk(s.mem, s.tree) && TreeSafe(s.tree, s.pool) && 0 < s.tree.root < |s.mem|
    ensures PathPermits(s.mem, s.tree.root, 0, va, perms)
  {
    hide HeapOk, Ledger, Linear, PathPermits, LinkOk, Linked;
    RootOf(s.mem, s.tree);
    UnrestrictedPermits(s.mem, s.tree, s.tree.root, va, perms);
  }

  lemma RootStays(s: State, s': State)
    requires Onward(s, s')
    ensures s'.tree.root == s.tree.root
  {
  }

  lemma RootAddress(s: State)
    requires Intact(s) && |s.mem| <= MAX_FRAMES && (s.base == 0 || s.base == KERNEL_BASE)
    ensures VaToPa(s.base, PageVa(s.base, s.tree.root)) / PAGE_SIZE == s.tree.root
  {
    RootInRam(s);
    hide Intact, SameWalks;
    FrameAddress(s.base, s.tree.root);
  }

  lemma FrameAddress(base: nat, f: nat)
    requires (base == 0 || base == KERNEL_BASE) && f < MAX_FRAMES
    ensures VaToPa(base, PageVa(base, f)) / PAGE_SIZE == f
  {
  }

  lemma RunFrame(s: State, first: nat, i: nat, j: nat)
    requires Intact(s) && first in s.runs && i < s.runs[first] && j < 512
    requires |s.mem| <= MAX_FRAMES && (s.base == 0 || s.base == KERNEL_BASE)
             && forall g :: g in s.pool.used ==> g < |s.mem|
    ensures first + i in s.held && first + i < |s.mem|
    ensures VaToPa(s.base, PaToVa(s.base, (first + i) * PAGE_SIZE) + 8 * j) == (first + i) * PAGE_SIZE + 8 * j
  {
    hide HeapOk, TreeOk, Unrestricted, Linear;
    assert first + i in Run(first, s.runs[first]);
    LinearMap(s.base, (first + i) * PAGE_SIZE);
  }

  // ---- pointers

  /** In an intact high-half state every kernel pointer into a page of the allocator is translated to the address
    that `va_to_pa` computes. */
  lemma PointersTranslate(s: State, f: nat, o: nat)
    requires Intact(s) && s.base == KERNEL_BASE && f in s.pool.managed && f < MAX_FRAMES && o < PAGE_SIZE
    ensures s.tree.root < |s.mem|
    ensures var w := Walk(s.mem, s.tree.root, PaToVa(s.base, f * PAGE_SIZE + o));
            && |w| == 4 && Effective(w) == Access(true, true, false, false)
            && OutputAddress(w[3]) + o == f * PAGE_SIZE + o == VaToPa(s.base, PaToVa(s.base, f * PAGE_SIZE + o))
  {
    hide System, LinearAt, OutputAddress, WalkFrom, Effective;
    assert LinearAt(s.mem, s.tree.root, s.image, f * PAGE_SIZE);
    TreeReady(s, 0, Permissions(true, true, true, true));
    LinearByte(s.mem, s.tree.root, s.image, f, o);
  }

  /** A granted mapping keeps kernel pointers and their translation in agreement exactly when it is for no page of the
    allocator's linear map, or maps such a page readable and writable to the very frame it stands for. */
  lemma AgreementIff(s: State, s': State, va: nat, pa: nat, perms: Permissions, memType: MemType)
    requires Intact(s) && s.base == KERNEL_BASE && MapTried(s, s', va, pa, perms, memType, true) && pa % PAGE_SIZE == 0
    requires forall f :: f in s.pool.managed ==> f < MAX_FRAMES
    ensures PointersAgree(s'.mem, s.tree.root, s.pool.managed) <==>
            forall f :: f in s.pool.managed && SamePage(va, KERNEL_BASE + f * PAGE_SIZE) ==>
              perms.read && perms.write && pa % 0x4_0000_0000_0000 == f * PAGE_SIZE
  {
    hide HeapOk, TreeOk, Unrestricted, Ledger, Owners, LinearAt, Mapped, PointerAgrees, SamePage;
    forall f | f in s.pool.managed
      ensures PointerAgrees(s.mem, s.tree.root, f)
    {
      LinearPointer(s.mem, s.tree.root, s.image, f);
    }
    AgreementKept(s.mem, s.tree, s.pool, s'.mem, s'.tree, s'.pool, va, pa, perms, memType, s.pool.managed);
  }

  lemma BitmapPage(s: State, mem: Mem, base: nat, chunks: seq<Chunk>, rs: seq<Region>, p: Pool, c: nat)
    requires Inv(mem, base, chunks, rs, p) && base == KERNEL_BASE && |mem| <= MAX_FRAMES && c < |chunks|
             && chunks[c].initialized
    ensures var f := chunks[c].memBase / PAGE_SIZE;
            && f in p.managed && f < |mem| && chunks[c].memBase == f * PAGE_SIZE
            && chunks[c].bitmap == KERNEL_BASE + f * PAGE_SIZE
            && VaToPa(base, chunks[c].bitmap) == f * PAGE_SIZE
  {
    KnownChunk(mem, base, chunks, rs, p, c);
    var f := chunks[c].memBase / PAGE_SIZE;
    LinearMap(base, f * PAGE_SIZE);
    assert rs[c].Holds(f) && TracksRegion(rs[c], p);
  }

  /** Where a walk succeeds no table is missing. */
  lemma {:induction false} WalkedMissing(mem: Mem, f: nat, level: nat, va: nat)
    requires f < |mem| && level <= 3 && WalkFrom(mem, f, level, va) != []
    ensures Missing(mem, f, level, va) == 0
    decreases 3 - level
  {
    hide Index, Field;
    if level < 3 {
      WalkedMissing(mem, TableFrame(mem[f][Index(va, level)]), level + 1, va);
    }
  }

  lemma NoneMissing(s: State, f: nat)
    requires Intact(s) && s.base == KERNEL_BASE && f in s.pool.managed && s.tree.root < |s.mem|
    ensures Missing(s.mem, s.tree.root, 0, KERNEL_BASE + f * PAGE_SIZE) == 0
  {
    hide System, Missing, WalkFrom, PageDescriptor, TablePermits;
    assert LinearAt(s.mem, s.tree.root, s.image, f * PAGE_SIZE);
    WalkedMissing(s.mem, s.tree.root, 0, KERNEL_BASE + f * PAGE_SIZE);
  }

  lemma Redirected(s: State, s': State, pa: nat, perms: Permissions, f: nat)
    requires Intact(s) && s.base == KERNEL_BASE && f in s.pool.managed && f < MAX_FRAMES
    requires MapTried(s, s', KERNEL_BASE + f * PAGE_SIZE, pa, perms, NORMAL, true) && perms.read
    requires pa % PAGE_SIZE == 0 && pa < 0x4_0000_0000_0000 && pa != f * PAGE_SIZE
    ensures s.tree.root < |s'.mem| && |Walk(s'.mem, s.tree.root, KERNEL_BASE + f * PAGE_SIZE)| == 4
    ensures OutputAddress(Walk(s'.mem, s.tree.root, KERNEL_BASE + f * PAGE_SIZE)[3]) == pa
    ensures s'.tree.root == s.tree.root && s'.pool.managed == s.pool.managed && !Linear(s')
  {
    hide System, Linear, OutputAddress, SamePage, Mapped, Walk, Unrestricted;
    var va := KERNEL_BASE + f * PAGE_SIZE;
    assert Unrestricted(s.mem, s.tree) by { TreeFree(s); }
    MapSystem(s, s', va, pa, perms, NORMAL, true);
    SamePageSelf(va);
    RemappedPage(s.mem, s.tree, s.pool, s'.mem, s'.tree, s'.pool, va, pa, perms, NORMAL, f);
    assert pa % 0x4_0000_0000_0000 == pa;
    SameRamAfter(s, s', va, pa, perms);
    NotLinear(s', f);
  }

  lemma TreeFree(s: State)
    requires System(s)
    ensures Unrestricted(s.mem, s.tree)
  {
  }

  lemma SameRamAfter(s: State, s': State, va: nat, pa: nat, perms: Permissions)
    requires MapTried(s, s', va, pa, perms, NORMAL, true)
    ensures s.tree.root < |s'.mem| && s'.base == s.base
  {
  }

  lemma NotLinear(s: State, f: nat)
    requires s.base == KERNEL_BASE && f in s.pool.managed && f < MAX_FRAMES && s.tree.root < |s.mem|
    requires var w := Walk(s.mem, s.tree.root, KERNEL_BASE + f * PAGE_SIZE);
             |w| == 4 && OutputAddress(w[3]) != f * PAGE_SIZE
    ensures !Linear(s)
  {
    hide LinearAt, OutputAddress, WalkFrom;
    if LinearAt(s.mem, s.tree.root, s.image, f * PAGE_SIZE) {
      LinearPointer(s.mem, s.tree.root, s.image, f);
    }
  }

  lemma SamePageSelf(va: nat)
    ensures SamePage(va, va)
  {
  }
}
