/** setup_page_allocator of utils.c: register RAM, then reserve the image and the device tree. */
module PageSetup {
  import opened Bits
  import opened Memory
  import opened PhysicalPages
  import opened PageAllocation
  import opened KernelMap
  import opened IdMap
  import opened DeviceTree

  // ---- setup_page_allocator

  /** No region starts inside another. */
  ghost predicate Separate(regions: seq<MemRegion>) {
    forall i: nat, j: nat :: i < |regions| && j < |regions| && i != j ==>
                          regions[j].base < regions[i].base || regions[i].base + regions[i].size <= regions[j].base
  }

  ghost predicate InRam(regions: seq<MemRegion>, frames: nat) {
    forall i: nat :: i < |regions| ==> regions[i].base + regions[i].size <= frames * PAGE_SIZE
  }

  function RegionOf(r: MemRegion): Region {
    NewRegion(FirstFrame(r.base), WholePages(r.base, r.size))
  }

  ghost predicate AllUsable(regions: seq<MemRegion>, n: nat, image: Image) {
    n <= |regions| && forall i: nat :: i < n ==> RegionUsable(regions[i].base, regions[i].size, true, image)
  }

  /** The frames that these regions offer, and those of them that hold the bitmaps. */
  function ManagedFrames(regions: seq<MemRegion>): set<nat> {
    if regions == [] then {}
    else
      var r := regions[|regions| - 1];
      ManagedFrames(regions[..|regions| - 1]) + Run(FirstFrame(r.base), WholePages(r.base, r.size))
  }

  function BitmapFrames(regions: seq<MemRegion>): set<nat> {
    if regions == [] then {}
    else
      var r := regions[|regions| - 1];
      BitmapFrames(regions[..|regions| - 1]) + Run(FirstFrame(r.base), BitmapPages(WholePages(r.base, r.size)))
  }

  lemma {:induction false} OwnFrames(regions: seq<MemRegion>, i: nat)
    requires i < |regions|
    ensures var first, pages := FirstFrame(regions[i].base), WholePages(regions[i].base, regions[i].size);
            Run(first, pages) <= ManagedFrames(regions) && Run(first, BitmapPages(pages)) <= BitmapFrames(regions)
  {
    hide FirstFrame, WholePages, BitmapPages;
    if i < |regions| - 1 {
      OwnFrames(regions[..|regions| - 1], i);
    }
  }

  lemma {:induction false} SomeBitmap(regions: seq<MemRegion>, f: nat) returns (i: nat)
    requires f in BitmapFrames(regions)
    ensures i < |regions|
    ensures f in Run(FirstFrame(regions[i].base), BitmapPages(WholePages(regions[i].base, regions[i].size)))
  {
    hide FirstFrame, WholePages, BitmapPages;
    i := |regions| - 1;
    if f !in Run(FirstFrame(regions[i].base), BitmapPages(WholePages(regions[i].base, regions[i].size))) {
      i := SomeBitmap(regions[..i], f);
    }
  }

  lemma FramesNext(regions: seq<MemRegion>, n: nat)
    requires n < |regions|
    ensures var r := regions[n];
            && ManagedFrames(regions[..n + 1]) == ManagedFrames(regions[..n]) + Run(FirstFrame(r.base),
                WholePages(r.base, r.size))
            && BitmapFrames(regions[..n + 1]) == BitmapFrames(regions[..n]) + Run(FirstFrame(r.base),
                BitmapPages(WholePages(r.base, r.size)))
  {
    assert regions[..n + 1][..n] == regions[..n];
  }

  /** Some region holds `n` whole pages from `start` on. */
  ghost predicate Holdable(regions: seq<MemRegion>, start: nat, n: nat) {
    exists i: nat :: i < |regions| && ReserveFits(RegionOf(regions[i]), start, n)
  }

  /** The first `n` regions, and no others, are chunks, in order, with nothing but their bitmaps used. */
  ghost predicate Registered(rs: seq<Region>, p: Pool, regions: seq<MemRegion>, n: nat) {
    && |rs| == 10 && n <= |rs| && n <= |regions|
    && (forall k: nat :: k < n ==> rs[k] == RegionOf(regions[k]))
    && (forall k: nat :: n <= k < |rs| ==> rs[k].Absent?)
    && p.used == p.bitmaps && p.managed == ManagedFrames(regions[..n]) && p.bitmaps == BitmapFrames(regions[..n])
  }

  lemma ChunkSpan(r: MemRegion)
    requires WholePages(r.base, r.size) > 0
    ensures var c := RegionOf(r); r.base <= c.first * PAGE_SIZE < (c.first + |c.flags|) * PAGE_SIZE <= r.base + r.size
  {
  }

  lemma NextIsClear(rs: seq<Region>, p: Pool, regions: seq<MemRegion>, n: nat, image: Image)
    requires Registered(rs, p, regions, n) && AllUsable(regions, n, image) && Separate(regions) && n < |regions|
    ensures RegionClear(rs, regions[n].base, regions[n].size)
  {
    forall k: nat | k < |rs| && rs[k].Region?
      ensures rs[k].first * PAGE_SIZE != regions[n].base
      ensures regions[n].base + regions[n].size <= rs[k].first * PAGE_SIZE
              || (rs[k].first + |rs[k].flags|) * PAGE_SIZE <= regions[n].base
    {
      ChunkSpan(regions[k]);
    }
  }

  /** A bitmap page shares no byte with the image. */
  lemma UsableBitmap(r: MemRegion, image: Image, f: nat)
    requires RegionUsable(r.base, r.size, true, image) && RegionOf(r).HoldsBitmap(f)
    ensures (f + 1) * PAGE_SIZE <= image.start || image.end <= f * PAGE_SIZE
  {
    var pages := WholePages(r.base, r.size);
    assert FirstFrame(r.base) * PAGE_SIZE == AlignUp(r.base);
    assert f < FirstFrame(r.base) + BitmapPages(pages);
  }

  lemma BitmapsOffImage(rs: seq<Region>, p: Pool, regions: seq<MemRegion>, n: nat, image: Image, f: nat)
    requires Registered(rs, p, regions, n) && AllUsable(regions, n, image) && Consistent(rs, p) && f in p.bitmaps
    ensures (f + 1) * PAGE_SIZE <= image.start || image.end <= f * PAGE_SIZE
  {
    hide RegionUsable;
    var k: nat :| k < |rs| && rs[k].Holds(f);
    assert TracksRegion(rs[k], p);
    UsableBitmap(regions[k], image, f);
  }

  lemma ManagedInRegions(rs: seq<Region>, p: Pool, regions: seq<MemRegion>, n: nat, image: Image, f: nat)
    requires Registered(rs, p, regions, n) && AllUsable(regions, n, image) && Consistent(rs, p) && f in p.managed
    ensures InRegions(regions, f)
  {
    var k: nat :| k < |rs| && rs[k].Holds(f);
    ChunkSpan(regions[k]);
  }

  lemma RegisteredNext(rs: seq<Region>, p: Pool, mem: Mem, rs': seq<Region>, p': Pool, mem': Mem, k: nat,
                       regions: seq<MemRegion>, n: nat)
    requires Registered(rs, p, regions, n) && n < |regions|
    requires RegionAdded(rs, p, mem, rs', p', mem', k, regions[n].base, regions[n].size)
    requires forall j: nat :: j < k ==> rs[j].Region?
    ensures Registered(rs', p', regions, n + 1) && k == n
    ensures SameOutside(mem, mem', p'.bitmaps) && p.bitmaps <= p'.bitmaps
  {
    assert forall j: nat :: j < n ==> rs[j].Region?;
    if n < |rs| {
      assert rs[n].Absent?;
    }
    FramesNext(regions, n);
  }

  lemma SlotLeft(rs: seq<Region>, p: Pool, regions: seq<MemRegion>, n: nat)
    requires Registered(rs, p, regions, n)
    ensures (exists k: nat :: k < |rs| && rs[k].Absent?) <==> n < 10
  {
    if n < 10 {
      assert rs[n].Absent?;
    } else {
      assert forall k: nat :: k < |rs| ==> rs[k] == RegionOf(regions[k]);
    }
  }

  // ---- bitmaps, bit by bit

  /** The bitmaps of the first `n` regions hold exactly these used pages, and nothing else was written. */
  ghost predicate AllExact(mem0: Mem, mem: Mem, regions: seq<MemRegion>, n: nat, used: set<nat>) {
    && n <= |regions| && SameOutside(mem0, mem, BitmapFrames(regions[..n]))
    && forall i: nat :: i < n ==> RegionExact(mem0, mem, regions[i], used)
  }

  ghost predicate RegionExact(mem0: Mem, mem: Mem, r: MemRegion, used: set<nat>) {
    BitmapExact(mem0, mem, FirstFrame(r.base), WholePages(r.base, r.size), used)
  }

  lemma NoneExact(mem: Mem, regions: seq<MemRegion>)
    ensures AllExact(mem, mem, regions, 0, {})
  {
  }

  lemma UsedManaged(mem: Mem, base: nat, chunks: seq<Chunk>, rs: seq<Region>, p: Pool)
    requires Inv(mem, base, chunks, rs, p)
    ensures p.bitmaps <= p.used <= p.managed
  {
  }

  lemma ExactNext(mem0: Mem, rs: seq<Region>, p: Pool, mem: Mem, rs': seq<Region>, p': Pool, mem': Mem, k: nat,
                  regions: seq<MemRegion>, n: nat)
    requires Registered(rs, p, regions, n) && n < |regions| && p.used <= p.managed
    requires RegionAdded(rs, p, mem, rs', p', mem', k, regions[n].base, regions[n].size)
    requires AllExact(mem0, mem, regions, n, p.used)
    ensures AllExact(mem0, mem', regions, n + 1, p'.used)
  {
    hide FirstFrame, WholePages, BitmapPages, BitmapExact, BitmapMade, ManagedFrames, BitmapFrames;
    var first, pages := FirstFrame(regions[n].base), WholePages(regions[n].base, regions[n].size);
    var own := Run(first, BitmapPages(pages));
    BitmapRun(first, pages);
    FramesNext(regions, n);
    forall i: nat | i < n
      ensures RegionExact(mem0, mem', regions[i], p'.used)
    {
      var r := regions[i];
      OwnFrames(regions[..n], i);
      assert RegionExact(mem0, mem, r, p.used);
      ExactElsewhere(mem0, mem, mem', FirstFrame(r.base), WholePages(r.base, r.size), p.used, p'.used, own);
    }
    ExactMade(mem0, mem, mem', first, pages, p.used);
  }

  /** The loop of setup_page_allocator over the memory map. */
  method AddRegions(pages: PageAllocator, regions: seq<MemRegion>, image: Image) returns (ok: bool)
    requires pages.Valid() && pages.pool == EmptyPool() && Separate(regions) && InRam(regions, |pages.m.mem|)
    modifies pages, pages.m`mem
    ensures pages.Valid()
    ensures ok <==> |regions| <= 10 && AllUsable(regions, |regions|, image)
    ensures ok ==> Registered(pages.regions, pages.pool, regions, |regions|)
    ensures ok ==> AllExact(old(pages.m.mem), pages.m.mem, regions, |regions|, pages.pool.used)
  {
    hide Inv, RegionUsable, RegionRefused, RegionClear, Registered, Separate, AllExact;
    ghost var mem0 := pages.m.mem;
    NoneExact(mem0, regions);
    NoRegions(mem0, pages.m.kernelBase, pages.chunks, pages.regions, pages.pool);
    NothingRegistered(pages.regions, pages.pool, regions);
    var i := 0;
    while i < |regions|
      invariant i <= |regions| && pages.Valid() && |pages.m.mem| == |mem0|
      invariant AllUsable(regions, i, image) && i <= 10
      invariant Registered(pages.regions, pages.pool, regions, i)
      invariant AllExact(mem0, pages.m.mem, regions, i, pages.pool.used)
    {
      ghost var rs, p, mem1 := pages.regions, pages.pool, pages.m.mem;
      NextIsClear(rs, p, regions, i, image);
      SlotLeft(rs, p, regions, i);
      UsedManaged(mem1, pages.m.kernelBase, pages.chunks, rs, p);
      ok := pages.AddRegion(regions[i].base, regions[i].size, true, image);
      if !ok {
        return;
      }
      ghost var k: nat :|
        && RegionAdded(rs, p, mem1, pages.regions, pages.pool, pages.m.mem, k, regions[i].base, regions[i].size)
        && forall j: nat :: j < k ==> rs[j].Region?;
      RegisteredNext(rs, p, mem1, pages.regions, pages.pool, pages.m.mem, k, regions, i);
      ExactNext(mem0, rs, p, mem1, pages.regions, pages.pool, pages.m.mem, k, regions, i);
      i := i + 1;
    }
    ok := true;
  }

  lemma NothingRegistered(rs: seq<Region>, p: Pool, regions: seq<MemRegion>)
    requires |rs| == 10 && p == EmptyPool() && forall k: nat :: k < |rs| ==> rs[k].Absent?
    ensures Registered(rs, p, regions, 0)
  {
  }

  /** What is reserved once RAM is set up: bitmaps, image and device tree, all in pages of the regions. */
  ghost predicate Reserved(p: Pool, regions: seq<MemRegion>, image: Image, fdt: nat, fdtSize: nat) {
    && p.used == p.bitmaps + Run(image.start / PAGE_SIZE, ImagePages(image)) + Run(fdt / PAGE_SIZE, NumPages(fdtSize))
    && p.used <= p.managed
    && p.Within(image.start / PAGE_SIZE, ImagePages(image))
    && p.managed == ManagedFrames(regions) && p.bitmaps == BitmapFrames(regions)
    && (forall f :: f in p.managed ==> InRegions(regions, f))
    && (forall f :: f in p.bitmaps ==> (f + 1) * PAGE_SIZE <= image.start || image.end <= f * PAGE_SIZE)
  }

  /** The pages left free once RAM is set up. */
  function FreeFrames(regions: seq<MemRegion>, image: Image, fdt: nat, fdtSize: nat): set<nat> {
    ManagedFrames(regions) - BitmapFrames(regions) - Run(image.start / PAGE_SIZE,
                                                         ImagePages(image)) - Run(fdt / PAGE_SIZE, NumPages(fdtSize))
  }

  lemma ReservedFree(p: Pool, regions: seq<MemRegion>, image: Image, fdt: nat, fdtSize: nat)
    requires Reserved(p, regions, image, fdt, fdtSize)
    ensures p.Free() == FreeFrames(regions, image, fdt, fdtSize)
  {
  }

  /** Byte `a` lies in one of the `NUM_PAGES(size)` pages reserved for a range starting at `start`. */
  ghost predicate Covered(start: nat, size: nat, a: nat) {
    a / PAGE_SIZE in Run(start / PAGE_SIZE, NumPages(size))
  }

  /** All bytes of a range are covered exactly when the offset of its first byte in its page does not
    push the last one out; so always when the range starts on a page. */
  lemma ReserveCovers(start: nat, size: nat)
    requires size > 0
    ensures (forall a: nat :: start <= a < start + size ==> Covered(start, size, a)) <==>
            start % PAGE_SIZE + size <= NumPages(size) * PAGE_SIZE
    ensures start % PAGE_SIZE == 0 ==> start % PAGE_SIZE + size <= NumPages(size) * PAGE_SIZE
  {
    var f, n, last := start / PAGE_SIZE, NumPages(size), start + size - 1;
    assert Covered(start, size, last) <==> start % PAGE_SIZE + size <= n * PAGE_SIZE;
    forall a: nat | start <= a <= last && last / PAGE_SIZE < f + n
      ensures Covered(start, size, a)
    {
      assert f <= a / PAGE_SIZE <= last / PAGE_SIZE;
    }
  }

  /** The last page of a device tree that is not covered is free, unless it is the image's, a bitmap's or no RAM. */
  lemma LastPageFree(p: Pool, regions: seq<MemRegion>, image: Image, fdt: nat, fdtSize: nat)
    requires Reserved(p, regions, image, fdt, fdtSize) && fdtSize > 0
    ensures var last := (fdt + fdtSize - 1) / PAGE_SIZE;
            last in p.Free() <==>
            && fdt % PAGE_SIZE + fdtSize > NumPages(fdtSize) * PAGE_SIZE
            && last in p.managed && last !in p.bitmaps && last !in Run(image.start / PAGE_SIZE, ImagePages(image))
  {
    var f, n, last := fdt / PAGE_SIZE, NumPages(fdtSize), (fdt + fdtSize - 1) / PAGE_SIZE;
    assert last < f + n <==> fdt % PAGE_SIZE + fdtSize <= n * PAGE_SIZE;
    hide ImagePages, NumPages;
    assert last >= f;
  }

  /** The chunk lies where the region does. */
  ghost predicate Spans(c: Region, r: MemRegion) {
    c.Region? && |c.flags| == |RegionOf(r).flags| && c.(flags := []) == RegionOf(r).(flags := [])
  }

  ghost predicate Placed(rs: seq<Region>, regions: seq<MemRegion>) {
    |regions| <= |rs| && forall k: nat :: k < |rs| ==> if k < |regions| then Spans(rs[k], regions[k]) else rs[k].Absent?
  }

  /** The device tree is as the loader left it, and all of it was found, exactly when it lies off the bitmaps. */
  ghost predicate TreeKeptIff(mem0: Mem, mem: Mem, regions: seq<MemRegion>, image: Image, fdt: nat)
    requires fdt + 8 <= |mem0| * PAGE_SIZE
  {
    var size := TotalSize(mem0, fdt);
    BytesKept(mem0, mem, fdt, size) && SizeRead(mem0, regions, image, fdt) == size <==> OffBitmaps(regions, fdt, size)
  }

  /** setup_page_allocator, given the memory map and check_fdt's verdict. The size of the device tree is read after
    the regions were registered and the image was reserved. */
  method SetupPageAllocator(pages: PageAllocator, regions: seq<MemRegion>, image: Image, fdt: nat, valid: bool)
    returns (ok: bool)
    requires pages.Valid() && pages.m.kernelBase == 0 && pages.pool == EmptyPool()
    requires Separate(regions) && InRam(regions, |pages.m.mem|) && fdt + 8 <= |pages.m.mem| * PAGE_SIZE
    requires image.start <= image.end && image.end + PAGE_SIZE < ADDRESS_SPACE
    modifies pages, pages.m`mem
    ensures pages.Valid()
    ensures ok <==>
            && valid && |regions| <= 10 && AllUsable(regions, |regions|, image)
            && Holdable(regions, image.start, ImagePages(image))
            && Holdable(regions, fdt, NumPages(SizeRead(old(pages.m.mem), regions, image, fdt)))
    ensures ok ==> Reserved(pages.pool, regions, image, fdt, SizeRead(old(pages.m.mem), regions, image, fdt))
    ensures ok ==> AllExact(old(pages.m.mem), pages.m.mem, regions, |regions|, pages.pool.used)
    ensures ok && Header(old(pages.m.mem), fdt) ==> TreeKeptIff(old(pages.m.mem), pages.m.mem, regions, image, fdt)
  {
    hide Inv, AllUsable, Holdable, Separate, InRam, ImagePages, Placed, Reserved, InRegions, Registered, ManagedFrames,
         BitmapFrames, AllExact, SizeRead, TotalSize, Header, TreeKeptIff;
    ghost var mem0 := pages.m.mem;
    if !valid {
      return false;
    }
    ok := AddRegions(pages, regions, image);
    if !ok {
      return;
    }
    ghost var p := pages.pool;
    RegionsReady(pages.m.mem, pages.m.kernelBase, pages.chunks, pages.regions, p, regions, image);
    ImageSize(image);
    ok := ReserveRange(pages, image.start, ImagePages(image), regions, mem0);
    if !ok {
      return;
    }
    SameRam(mem0, pages.m.mem, regions, |regions|, pages.pool.used);
    SizeIs(mem0, pages.m.mem, regions, image, p.used + Run(image.start / PAGE_SIZE, ImagePages(image)), fdt);
    var size := ReadTotalSize(pages.m, fdt);
    ok := ReserveRange(pages, fdt, NumPages(size), regions, mem0);
    if ok {
      AllReserved(p, pages.pool, regions, image, fdt, size);
      if Header(mem0, fdt) {
        TreeSurvives(mem0, pages.m.mem, regions, image, fdt, pages.pool.used);
      }
    }
  }

  /** reserve_kernel_img_pages and reserve_fdt_pages: the whole pages of one range. */
  method ReserveRange(pages: PageAllocator, start: nat, n: nat, ghost regions: seq<MemRegion>, ghost mem0: Mem)
    returns (ok: bool)
    requires pages.Valid() && pages.m.kernelBase == 0 && Placed(pages.regions, regions)
    requires start + n * PAGE_SIZE < ADDRESS_SPACE && pages.pool.bitmaps == BitmapFrames(regions)
    requires AllExact(mem0, pages.m.mem, regions, |regions|, pages.pool.used)
    modifies pages`regions, pages`pool, pages.m`mem
    ensures pages.Valid() && (ok <==> Holdable(regions, start, n)) && Placed(pages.regions, regions)
    ensures ok ==> pages.pool == old(pages.pool).(used := old(pages.pool).used + Run(start / PAGE_SIZE, n))
    ensures ok ==> Run(start / PAGE_SIZE, n) <= pages.pool.managed && pages.pool.Within(start / PAGE_SIZE, n)
    ensures AllExact(mem0, pages.m.mem, regions, |regions|, pages.pool.used)
    ensures pages.pool.bitmaps == old(pages.pool).bitmaps
  {
    hide Inv, Holdable, ReserveFits, PagesReserved, Placed, AllExact, BitmapFrames;
    ghost var rs, p, mem := pages.regions, pages.pool, pages.m.mem;
    ReservePlace(rs, regions, start, n);
    ok := pages.ReservePage(VaToPa(pages.m.kernelBase, start), n);
    if ok {
      ReservedStep(mem, pages.m.kernelBase, pages.chunks, rs, p, pages.regions, pages.pool, pages.m.mem,
                   start / PAGE_SIZE, n, regions);
      ExactReserved(mem0, mem, pages.m.kernelBase, pages.chunks, rs, p, pages.regions, pages.pool, pages.m.mem,
                    start / PAGE_SIZE, n, regions);
    }
  }

  /** Reserving a run marks that run's bits. */
  lemma ExactReserved(mem0: Mem, mem: Mem, base: nat, chunks: seq<Chunk>, rs: seq<Region>, p: Pool,
                      rs': seq<Region>, p': Pool, mem': Mem, f: nat, n: nat, regions: seq<MemRegion>)
    requires Inv(mem, base, chunks, rs, p) && Placed(rs, regions) && PagesReserved(rs, p, mem, rs', p', mem', f, n)
    requires AllExact(mem0, mem, regions, |regions|, p.used) && p.bitmaps == BitmapFrames(regions)
    ensures AllExact(mem0, mem', regions, |regions|, p'.used)
  {
    hide FirstFrame, WholePages, BitmapPages, BitmapExact, BitmapFrames, Inv, BitsChanged, Spans, Placed, RegionExact,
         FirstFit.Marked;
    var k: nat :| k < |rs| && rs[k].Holds(f) && RunMarked(rs, p, mem, rs', p', mem', k, f - rs[k].first, n, true);
    assert regions[..|regions|] == regions;
    RegionAt(rs, regions, k);
    assert |regions| <= |rs| by { PlacedIn(rs, regions); }
    forall i: nat | i < |regions|
      ensures RegionExact(mem0, mem', regions[i], p'.used)
    {
      assert RegionExact(mem0, mem, regions[i], p.used);
      RegionAt(rs, regions, i);
      if i == k {
        OwnMarked(mem0, mem, mem', rs[k], regions[k], p.used, f - rs[k].first, n);
      } else {
        OthersApart(mem, base, chunks, rs, p, i, k);
        OtherMarked(mem0, mem, mem', rs[i], regions[i], rs[k], p.used, f - rs[k].first, n);
      }
    }
  }

  lemma PlacedIn(rs: seq<Region>, regions: seq<MemRegion>)
    requires Placed(rs, regions)
    ensures |regions| <= |rs|
  {
  }

  lemma RegionAt(rs: seq<Region>, regions: seq<MemRegion>, i: nat)
    requires Placed(rs, regions) && i < |rs|
    ensures rs[i].Region? ==> i < |regions| && Spans(rs[i], regions[i])
    ensures i < |regions| ==> rs[i].Region?
  {
  }

  lemma OwnMarked(mem0: Mem, mem: Mem, mem': Mem, c: Region, r: MemRegion, used: set<nat>, start: nat, n: nat)
    requires Spans(c, r) && RegionExact(mem0, mem, r, used) && start + n <= |c.flags|
    requires BitsChanged(mem, mem', c.first, c.bitmapPages, start, n, true)
    ensures RegionExact(mem0, mem', r, used + Run(c.first + start, n))
  {
    hide FirstFrame, WholePages, BitmapPages, BitmapExact, BitsChanged;
    ExactMarked(mem0, mem, mem', c.first, |c.flags|, used, start, n);
  }

  lemma OtherMarked(mem0: Mem, mem: Mem, mem': Mem, c: Region, r: MemRegion, marked: Region, used: set<nat>, start: nat,
                    n: nat)
    requires Spans(c, r) && RegionExact(mem0, mem, r, used)
    requires marked.Region? && start + n <= |marked.flags| && Apart(c, marked)
    requires marked.bitmapPages <= |marked.flags| && c.bitmapPages <= |c.flags|
    requires BitsChanged(mem, mem', marked.first, marked.bitmapPages, start, n, true)
    ensures RegionExact(mem0, mem', r, used + Run(marked.first + start, n))
  {
    hide FirstFrame, WholePages, BitmapPages, BitmapExact, Bit;
    ExactElsewhere(mem0, mem, mem', c.first, |c.flags|, used, used + Run(marked.first + start, n),
                   Run(marked.first, marked.bitmapPages));
  }

  lemma OthersApart(mem: Mem, base: nat, chunks: seq<Chunk>, rs: seq<Region>, p: Pool, i: nat, k: nat)
    requires Inv(mem, base, chunks, rs, p) && i < |rs| && k < |rs| && rs[i].Region? && rs[k].Region? && i != k
    ensures Apart(rs[i], rs[k]) && rs[i].bitmapPages <= |rs[i].flags| && rs[k].bitmapPages <= |rs[k].flags|
  {
  }

  lemma SameRam(mem0: Mem, mem: Mem, regions: seq<MemRegion>, n: nat, used: set<nat>)
    requires AllExact(mem0, mem, regions, n, used)
    ensures |mem| == |mem0|
  {
  }

  // ---- what is read through the bitmaps

  /** In each region's chunk exactly the first pages are the bitmap's. */
  lemma BitmapMembers(regions: seq<MemRegion>, image: Image, i: nat, f: nat)
    requires Separate(regions) && AllUsable(regions, |regions|, image) && i < |regions|
    requires f in Run(FirstFrame(regions[i].base), WholePages(regions[i].base, regions[i].size))
    ensures f in BitmapFrames(regions) <==>
            f < FirstFrame(regions[i].base) + BitmapPages(WholePages(regions[i].base, regions[i].size))
  {
    OwnFrames(regions, i);
    ChunkSpan(regions[i]);
    if f in BitmapFrames(regions) {
      var j := SomeBitmap(regions, f);
      ChunkSpan(regions[j]);
      BitmapFits(WholePages(regions[j].base, regions[j].size));
      hide FirstFrame, WholePages, BitmapPages, BitmapFrames, ManagedFrames;
    }
  }

  lemma ImageOnly(regions: seq<MemRegion>, image: Image, used: set<nat>, i: nat)
    requires Separate(regions) && AllUsable(regions, |regions|, image) && i < |regions|
    requires used == BitmapFrames(regions) + Run(image.start / PAGE_SIZE, ImagePages(image))
    ensures OnlyImage(FirstFrame(regions[i].base), WholePages(regions[i].base, regions[i].size), image, used)
  {
    hide Separate, AllUsable, BitmapFrames, FirstFrame, WholePages, BitmapPages, ImagePages;
    var first, pages := FirstFrame(regions[i].base), WholePages(regions[i].base, regions[i].size);
    forall j: nat | j < pages
      ensures first + j in used <==> PageUsed(first, pages, image, j)
    {
      BitmapMembers(regions, image, i, first + j);
    }
  }

  /** A byte of no bitmap is as it was. */
  lemma ByteElsewhere(mem0: Mem, mem: Mem, regions: seq<MemRegion>, used: set<nat>, a: nat)
    requires AllExact(mem0, mem, regions, |regions|, used) && a / PAGE_SIZE < |mem0|
    requires forall i: nat :: i < |regions| ==> !BitmapHolds(regions[i], a)
    ensures |mem| == |mem0| && ByteAt(mem, a) == ByteAt(mem0, a)
  {
    hide FirstFrame, WholePages, BitmapPages, BitmapFrames, BitmapExact, InBitmap, ByteIn;
    assert regions[..|regions|] == regions;
    if a / PAGE_SIZE in BitmapFrames(regions) {
      var i := SomeBitmap(regions, a / PAGE_SIZE);
      var r := regions[i];
      assert RegionExact(mem0, mem, r, used) && !BitmapHolds(r, a);
      ByteBehind(mem0, mem, FirstFrame(r.base), WholePages(r.base, r.size), used, a);
    }
  }

  lemma ByteIs(mem0: Mem, mem: Mem, regions: seq<MemRegion>, image: Image, used: set<nat>, a: nat)
    requires Separate(regions) && AllUsable(regions, |regions|, image)
    requires used == BitmapFrames(regions) + Run(image.start / PAGE_SIZE, ImagePages(image))
    requires AllExact(mem0, mem, regions, |regions|, used) && a / PAGE_SIZE < |mem0|
    ensures |mem| == |mem0| && ByteAt(mem, a) == ByteRead(mem0, regions, image, a)
  {
    hide Separate, AllUsable, BitmapFrames, FirstFrame, WholePages, BitmapPages, ImagePages, BitmapExact, InBitmap,
         OnlyImage, Packed, ByteAt;
    forall i: nat | i < |regions| && BitmapHolds(regions[i], a)
      ensures var first := FirstFrame(regions[i].base);
              && a / PAGE_SIZE < |mem|
              && first * PAGE_SIZE <= a
              && ByteAt(mem, a) == Packed(first, WholePages(regions[i].base, regions[i].size), image,
                                          a - first * PAGE_SIZE, 8)
    {
      var r := regions[i];
      ImageOnly(regions, image, used, i);
      assert RegionExact(mem0, mem, r, used);
      StartsBefore(r, a);
      PackedByte(mem0, mem, FirstFrame(r.base), WholePages(r.base, r.size), image, used, a);
    }
    if forall i: nat :: i < |regions| ==> !BitmapHolds(regions[i], a) {
      ByteElsewhere(mem0, mem, regions, used, a);
    }
  }

  lemma StartsBefore(r: MemRegion, a: nat)
    requires BitmapHolds(r, a)
    ensures FirstFrame(r.base) * PAGE_SIZE <= a
  {
  }

  lemma SizeIs(mem0: Mem, mem: Mem, regions: seq<MemRegion>, image: Image, used: set<nat>, fdt: nat)
    requires Separate(regions) && AllUsable(regions, |regions|, image) && fdt + 8 <= |mem0| * PAGE_SIZE
    requires used == BitmapFrames(regions) + Run(image.start / PAGE_SIZE, ImagePages(image))
    requires AllExact(mem0, mem, regions, |regions|, used)
    ensures |mem| == |mem0| && TotalSize(mem, fdt) == SizeRead(mem0, regions, image, fdt)
  {
    hide Separate, AllUsable, AllExact, BitmapFrames, ImagePages, ByteRead, ByteAt;
    ByteIs(mem0, mem, regions, image, used, fdt + 4);
    ByteIs(mem0, mem, regions, image, used, fdt + 5);
    ByteIs(mem0, mem, regions, image, used, fdt + 6);
    ByteIs(mem0, mem, regions, image, used, fdt + 7);
  }

  lemma AllReserved(p: Pool, p': Pool, regions: seq<MemRegion>, image: Image, fdt: nat, fdtSize: nat)
    requires var kernel, tree := Run(image.start / PAGE_SIZE, ImagePages(image)),
             Run(fdt / PAGE_SIZE, NumPages(fdtSize));
             && p' == p.(used := p.used + kernel + tree) && kernel <= p.managed && tree <= p.managed
    requires p.used == p.bitmaps && p.used <= p.managed && p'.Within(image.start / PAGE_SIZE, ImagePages(image))
    requires p.managed == ManagedFrames(regions) && p.bitmaps == BitmapFrames(regions)
    requires forall f :: f in p.managed ==> InRegions(regions, f)
    requires forall f :: f in p.bitmaps ==> (f + 1) * PAGE_SIZE <= image.start || image.end <= f * PAGE_SIZE
    ensures Reserved(p', regions, image, fdt, fdtSize)
  {
  }

  // ---- what becomes of the device tree

  /** Everything that was reserved in this chunk, in two runs. */
  lemma ReservedRuns(regions: seq<MemRegion>, image: Image, used: set<nat>, i: nat, fdt: nat, n: nat)
    returns (prefix: nat)
    requires Separate(regions) && AllUsable(regions, |regions|, image) && i < |regions|
    requires used == BitmapFrames(regions) + Run(image.start / PAGE_SIZE, ImagePages(image)) + Run(fdt / PAGE_SIZE, n)
    requires BitmapHolds(regions[i], fdt)
    ensures TwoRuns(FirstFrame(regions[i].base), WholePages(regions[i].base, regions[i].size), used, prefix,
                    image.start / PAGE_SIZE, ImagePages(image))
  {
    var first, pages := FirstFrame(regions[i].base), WholePages(regions[i].base, regions[i].size);
    InBitmapRun(first, pages, fdt);
    hide Separate, AllUsable, BitmapFrames, FirstFrame, WholePages, BitmapPages, ImagePages;
    var end := fdt / PAGE_SIZE + n - first;
    prefix := if end < BitmapPages(pages) then BitmapPages(pages) else end;
    forall f | f in Run(first, pages)
      ensures f in used <==> f < first + prefix || InRun(f, image.start / PAGE_SIZE, ImagePages(image))
    {
      BitmapMembers(regions, image, i, f);
    }
  }

  /** Reserved where it is, the tree lies behind its chunk's bitmap and so off all bitmaps. */
  lemma BehindBitmap(regions: seq<MemRegion>, image: Image, i: nat, fdt: nat, size: nat)
    requires Separate(regions) && AllUsable(regions, |regions|, image) && i < |regions|
    requires ReserveFits(RegionOf(regions[i]), fdt, NumPages(size)) && !BitmapHolds(regions[i], fdt)
    ensures OffBitmaps(regions, fdt, size)
  {
    forall j: nat | j < |regions|
      ensures var first := FirstFrame(regions[j].base) * PAGE_SIZE;
              fdt + size <= first || first + BitmapBytes(WholePages(regions[j].base, regions[j].size)) <= fdt
    {
      ChunkSpan(regions[i]);
      ChunkSpan(regions[j]);
      BytesInside(WholePages(regions[j].base, regions[j].size));
      hide FirstFrame, WholePages, BitmapBytes;
    }
  }

  lemma BytesInside(pages: nat)
    ensures BitmapBytes(pages) <= pages * PAGE_SIZE
  {
  }

  lemma KeptOff(mem0: Mem, mem: Mem, regions: seq<MemRegion>, used: set<nat>, fdt: nat, size: nat)
    requires AllExact(mem0, mem, regions, |regions|, used) && OffBitmaps(regions, fdt, size)
    ensures BytesKept(mem0, mem, fdt, size)
  {
    SameRam(mem0, mem, regions, |regions|, used);
    hide AllExact, ByteAt;
    forall a: nat | fdt <= a < fdt + size && a / PAGE_SIZE < |mem0|
      ensures ByteAt(mem, a) == ByteAt(mem0, a)
    {
      forall i: nat | i < |regions|
        ensures !BitmapHolds(regions[i], a)
      {
        hide FirstFrame, WholePages, BitmapBytes;
      }
      ByteElsewhere(mem0, mem, regions, used, a);
    }
  }

  /** The bytes of an accepted device tree survive and its size reads back exactly when they lie off all bitmaps. */
  lemma TreeSurvives(mem0: Mem, mem: Mem, regions: seq<MemRegion>, image: Image, fdt: nat, used: set<nat>)
    requires Separate(regions) && AllUsable(regions, |regions|, image) && Header(mem0, fdt)
    requires var n := NumPages(SizeRead(mem0, regions, image, fdt));
             && Holdable(regions, fdt, n)
             && used == BitmapFrames(regions) + Run(image.start / PAGE_SIZE, ImagePages(image)) + Run(fdt / PAGE_SIZE,
                 n)
    requires AllExact(mem0, mem, regions, |regions|, used)
    ensures TreeKeptIff(mem0, mem, regions, image, fdt)
  {
    hide Separate, AllUsable, AllExact, BitmapFrames, ImagePages, SizeRead, TotalSize, ByteAt, OffBitmaps, BitmapHolds,
         RegionOf, ReserveFits, TwoRuns, NumPages;
    var size := TotalSize(mem0, fdt);
    if OffBitmaps(regions, fdt, size) {
      SizeReadsBack(mem0, regions, image, fdt, size);
      KeptOff(mem0, mem, regions, used, fdt, size);
    } else if SizeRead(mem0, regions, image, fdt) == size {
      var i: nat :| i < |regions| && ReserveFits(RegionOf(regions[i]), fdt, NumPages(size));
      if BitmapHolds(regions[i], fdt) {
        var prefix := ReservedRuns(regions, image, used, i, fdt, NumPages(size));
        MagicGone(mem0, mem, regions, used, i, fdt, prefix, image);
      } else {
        BehindBitmap(regions, image, i, fdt, size);
      }
    }
  }

  lemma MagicGone(mem0: Mem, mem: Mem, regions: seq<MemRegion>, used: set<nat>, i: nat, fdt: nat, prefix: nat,
                  image: Image)
    requires i < |regions| && BitmapHolds(regions[i], fdt) && AllExact(mem0, mem, regions, |regions|, used)
    requires TwoRuns(FirstFrame(regions[i].base), WholePages(regions[i].base, regions[i].size), used, prefix,
                     image.start / PAGE_SIZE, ImagePages(image))
    ensures fdt / PAGE_SIZE < |mem| && ByteAt(mem, fdt) != 0xD0
  {
    hide FirstFrame, WholePages, BitmapFrames, BitmapExact, InBitmap, TwoRuns, ImagePages, ByteAt;
    var r := regions[i];
    assert RegionExact(mem0, mem, r, used);
    NoMagic(mem0, mem, FirstFrame(r.base), WholePages(r.base, r.size), used, fdt, prefix, image.start / PAGE_SIZE,
            ImagePages(image));
  }

  const QEMU_RAM: MemRegion := MemRegion(0x4000_0000, 0x800_0000)

  lemma QemuFrames()
    ensures FirstFrame(QEMU_RAM.base) == 0x40000 && WholePages(QEMU_RAM.base, QEMU_RAM.size) == 0x8000
            && BitmapPages(0x8000) == 1
    ensures ManagedFrames([QEMU_RAM]) == Run(0x40000, 0x8000) && BitmapFrames([QEMU_RAM]) == Run(0x40000, 1)
  {
    assert [QEMU_RAM][..0] == [];
  }

  /** What the one region of QEMU's virt machine can hold, and which images leave its bitmap alone. */
  lemma QemuHolds(image: Image, start: nat, n: nat)
    ensures Holdable([QEMU_RAM], start, n) <==>
              QEMU_RAM.base <= start < QEMU_RAM.base + QEMU_RAM.size
                && start + n * PAGE_SIZE <= QEMU_RAM.base + QEMU_RAM.size
    ensures AllUsable([QEMU_RAM], 1, image) <==> image.end <= QEMU_RAM.base || image.start >= QEMU_RAM.base + PAGE_SIZE
  {
    QemuFrames();
    var c := RegionOf([QEMU_RAM][0]);
    assert c.first == 0x40000 && |c.flags| == 0x8000;
    assert ReserveFits(c, start, n) <==>
             QEMU_RAM.base <= start < QEMU_RAM.base + QEMU_RAM.size
               && start + n * PAGE_SIZE <= QEMU_RAM.base + QEMU_RAM.size;
    hide ReserveFits, FirstFrame, WholePages;
  }

  /** QEMU's RAM with one word in it and zeros around. */
  function RamWith(f: nat, j: nat, w: Word): (ram: Mem)
    requires f < 0x48000 && j < 512
    ensures |ram| == 0x48000
  {
    var zeros: Mem := seq(0x48000, _ => ZeroFrame());
    zeros[f := ZeroFrame()[j := w]]
  }

  /** What the witnesses start from: QEMU's RAM, and an image that leaves room for the bitmap. */
  const SOME_IMAGE: Image := Image(0x4008_0000, 0x400A_0000)

  lemma QemuReady(fdt: nat, n: nat)
    requires QEMU_RAM.base <= fdt && fdt + n * PAGE_SIZE < QEMU_RAM.base + QEMU_RAM.size
    ensures Separate([QEMU_RAM]) && InRam([QEMU_RAM], 0x48000) && AllUsable([QEMU_RAM], 1, SOME_IMAGE)
    ensures Holdable([QEMU_RAM], SOME_IMAGE.start, ImagePages(SOME_IMAGE)) && Holdable([QEMU_RAM], fdt, n)
    ensures ManagedFrames([QEMU_RAM]) == Run(0x40000, 0x8000) && BitmapFrames([QEMU_RAM]) == Run(0x40000, 1)
  {
    QemuHolds(SOME_IMAGE, SOME_IMAGE.start, ImagePages(SOME_IMAGE));
    QemuHolds(SOME_IMAGE, fdt, n);
    QemuFrames();
  }

  lemma TreeInPage(ram: Mem)
    requires |ram| == 0x48000 && ram[0x44000][256] == 0x0010_0000_EDFE_0DD0
    ensures SizeRead(ram, [QEMU_RAM], SOME_IMAGE, 0x4400_0800) == PAGE_SIZE
  {
    hide SizeRead, FirstFrame, WholePages, TotalSize, Header;
    HeaderAt(ram, 0x44000, 256, 0x0010_0000_EDFE_0DD0, 0x0010_0000);
    QemuFrames();
    SizeReadsBack(ram, [QEMU_RAM], SOME_IMAGE, 0x4400_0800, PAGE_SIZE);
  }

  lemma TreeUnderBitmap(ram: Mem)
    requires |ram| == 0x48000 && ram[0x40000][0] == 0x0000_0400_EDFE_0DD0
    ensures Header(ram, 0x4000_0000) && TotalSize(ram, 0x4000_0000) == 0x4_0000
    ensures SizeRead(ram, [QEMU_RAM], SOME_IMAGE, 0x4000_0000) == 0
  {
    hide SizeRead, TotalSize, Header;
    HeaderAt(ram, 0x40000, 0, 0x0000_0400_EDFE_0DD0, 0x0400);
    ReadsZero(ram, SOME_IMAGE, 0x4000_0000);
  }

  /** A device tree of 4096 bytes in the middle of a page of RAM: it is accepted, and its last byte lies in a page
    that the allocator will hand out. */
  method ReserveMisses() returns (ok: bool, pages: PageAllocator)
    ensures ok && pages.Valid() && fresh(pages)
    ensures (0x4400_0800 + PAGE_SIZE - 1) / PAGE_SIZE in pages.pool.Free()
  {
    var fdt, regions, ram := 0x4400_0800, [QEMU_RAM], RamWith(0x44000, 256, 0x0010_0000_EDFE_0DD0);
    var m := new Machine(ram);
    pages := new PageAllocator(m);
    QemuReady(fdt, NumPages(PAGE_SIZE));
    TreeInPage(ram);
    hide AllUsable, Holdable, Reserved, Separate, InRam, ManagedFrames, BitmapFrames, SizeRead, AllExact, RamWith,
         ImagePages;
    ok := SetupPageAllocator(pages, regions, SOME_IMAGE, fdt, true);
    LeftFree(pages.pool);
  }

  lemma LeftFree(p: Pool)
    requires Reserved(p, [QEMU_RAM], SOME_IMAGE, 0x4400_0800, PAGE_SIZE)
    ensures (0x4400_0800 + PAGE_SIZE - 1) / PAGE_SIZE in p.Free()
  {
    QemuFrames();
    hide Reserved, ManagedFrames, BitmapFrames;
    ReservedFree(p, [QEMU_RAM], SOME_IMAGE, 0x4400_0800, PAGE_SIZE);
  }

  lemma TreeFree(p: Pool)
    requires Reserved(p, [QEMU_RAM], SOME_IMAGE, 0x4000_0000, 0)
    ensures Run(0x40001, 63) <= p.Free()
  {
    QemuFrames();
    hide Reserved, ManagedFrames, BitmapFrames;
    ReservedFree(p, [QEMU_RAM], SOME_IMAGE, 0x4000_0000, 0);
  }

  /** A device tree of 256 KiB at the start of RAM: the bitmap is laid over it, its size reads 0 after that, and all
    its 64 pages but the bitmap's own will be handed out. */
  method TreeLost() returns (ok: bool, pages: PageAllocator, ghost ram: Mem)
    ensures |ram| == 0x48000 && Header(ram, 0x4000_0000) && TotalSize(ram, 0x4000_0000) == 0x4_0000
    ensures ok && pages.Valid() && fresh(pages) && Run(0x40001, 63) <= pages.pool.Free()
  {
    var fdt, regions, memory := 0x4000_0000, [QEMU_RAM], RamWith(0x40000, 0, 0x0000_0400_EDFE_0DD0);
    ram := memory;
    var m := new Machine(memory);
    pages := new PageAllocator(m);
    QemuReady(fdt, 0);
    TreeUnderBitmap(ram);
    hide AllUsable, Holdable, Reserved, Separate, InRam, ManagedFrames, BitmapFrames, SizeRead, AllExact, RamWith,
         Header, TotalSize, ImagePages;
    ok := SetupPageAllocator(pages, regions, SOME_IMAGE, fdt, true);
    TreeFree(pages.pool);
  }

  /** No page is used whose bit the size field's bytes hold, so they read zero. */
  lemma ReadsZero(mem: Mem, image: Image, fdt: nat)
    requires fdt == 0x4000_0000 && fdt + 8 <= |mem| * PAGE_SIZE && image.start >= 0x4004_0000
    ensures SizeRead(mem, [QEMU_RAM], image, fdt) == 0
  {
    QemuFrames();
    hide FirstFrame, WholePages, BitmapPages, Packed, ByteAt;
    assert BitmapBytes(0x8000) == 0x1000;
    forall a: nat | fdt + 4 <= a < fdt + 8
      ensures a / PAGE_SIZE < |mem| && ByteRead(mem, [QEMU_RAM], image, a) == 0
    {
      assert BitmapHolds([QEMU_RAM][0], a);
      NoneUsed(0x40000, 0x8000, image, a - fdt, 8);
    }
  }

  lemma {:induction false} NoneUsed(first: nat, pages: nat, image: Image, o: nat, k: nat)
    requires k <= 8 && forall j: nat :: 8 * o <= j < 8 * o + 8 ==> !PageUsed(first, pages, image, j)
    ensures Packed(first, pages, image, o, k) == 0
  {
    hide PageUsed;
    if k > 0 {
      NoneUsed(first, pages, image, o, k - 1);
      ZeroBits(k - 1);
    }
  }

  lemma ImageSize(image: Image)
    requires image.start <= image.end && image.end + PAGE_SIZE < ADDRESS_SPACE
    ensures image.start + ImagePages(image) * PAGE_SIZE < ADDRESS_SPACE
  {
  }

  lemma ReservePlace(rs: seq<Region>, regions: seq<MemRegion>, start: nat, count: nat)
    requires Placed(rs, regions)
    ensures (exists k: nat :: k < |rs| && ReserveFits(rs[k], start, count)) <==> Holdable(regions, start, count)
  {
    forall k: nat | k < |regions|
      ensures ReserveFits(rs[k], start, count) == ReserveFits(RegionOf(regions[k]), start, count)
    {
    }
  }

  lemma ReservedStep(mem: Mem, base: nat, chunks: seq<Chunk>, rs: seq<Region>, p: Pool, rs': seq<Region>, p': Pool,
                     mem': Mem, f: nat, n: nat, regions: seq<MemRegion>)
    requires Inv(mem, base, chunks, rs, p) && Placed(rs, regions) && PagesReserved(rs, p, mem, rs', p', mem', f, n)
    ensures Placed(rs', regions) && p'.Within(f, n)
  {
    hide Inv, BitsChanged, Placed, FirstFit.Marked;
    var k: nat :| k < |rs| && rs[k].Holds(f) && RunMarked(rs, p, mem, rs', p', mem', k, f - rs[k].first, n, true);
    KnownSpan(mem, base, chunks, rs, p, k);
    assert p'.spans == p.spans && p'.spans[k].0 <= f && f + n <= p'.spans[k].0 + p'.spans[k].1;
    StillPlaced(rs, k, f - rs[k].first, n, regions);
  }

  lemma StillPlaced(rs: seq<Region>, k: nat, start: nat, n: nat, regions: seq<MemRegion>)
    requires Placed(rs, regions) && k < |rs| && rs[k].Region? && start + n <= |rs[k].flags|
    ensures Placed(rs[k := rs[k].Mark(start, n, true)], regions)
  {
  }

  lemma RegionsReady(mem: Mem, base: nat, chunks: seq<Chunk>, rs: seq<Region>, p: Pool, regions: seq<MemRegion>,
                     image: Image)
    requires Inv(mem, base, chunks, rs, p) && Registered(rs, p, regions, |regions|)
             && AllUsable(regions, |regions|, image)
    ensures Placed(rs, regions) && p.used == p.bitmaps && p.used <= p.managed
    ensures p.managed == ManagedFrames(regions) && p.bitmaps == BitmapFrames(regions)
    ensures forall f :: f in p.managed ==> InRegions(regions, f)
    ensures forall f :: f in p.bitmaps ==> (f + 1) * PAGE_SIZE <= image.start || image.end <= f * PAGE_SIZE
  {
    hide AllUsable, InRegions;
    assert regions[..|regions|] == regions;
    forall f | f in p.managed
      ensures InRegions(regions, f)
    {
      ManagedInRegions(rs, p, regions, |regions|, image, f);
    }
    forall f | f in p.bitmaps
      ensures (f + 1) * PAGE_SIZE <= image.start || image.end <= f * PAGE_SIZE
    {
      BitmapsOffImage(rs, p, regions, |regions|, image, f);
    }
  }
}
