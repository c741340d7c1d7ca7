/** The boot-time sequence: set up the page allocator, build the kernel's map, move to the high half and give the
  identity map's pages back. */
module Boot {
  import opened Memory
  import opened PhysicalPages
  import opened PageAllocation
  import opened Descriptors
  import opened TranslationTree
  import opened PageTables
  import opened TableGrowth
  import opened KernelMap
  import opened IdMap
  import opened DeviceTree
  import opened PageSetup

  // ---- the kernel's map and the high half

  /** Where the linker puts things: the image starts on a page and holds, from frame `b` on, the pool
    of the identity map (seven frames) and then the root of the kernel's map. */
  ghost predicate Layout(image: Image, b: nat) {
    && image.start % PAGE_SIZE == 0 && 0 < image.start <= b * PAGE_SIZE && (b + 8) * PAGE_SIZE <= image.end
  }

  /** The kernel's map is complete: RAM is mapped linearly, the map covers its own tables, the serial
    page is mapped, and no table is in the identity map's pool. */
  ghost predicate KernelMapped(mem: Mem, t: Tree, image: Image, regions: seq<MemRegion>, serial: nat, b: nat) {
    && TreeOk(mem, t) && Unrestricted(mem, t) && t.root == b + 7 && t.root < |mem| && t.Tables() !! Run(b, 7)
    && SelfMapped(mem, t, image)
    && Aligned(regions) && AllMapped(mem, t.root, image, regions)
    && Leads(Walk(mem, t.root, KERNEL_BASE + serial), serial, DEVICE_PERMISSIONS, DEVICE)
  }

  lemma SerialKeepsAll(mem: Mem, t: Tree, p: Pool, mem': Mem, t': Tree, p': Pool, image: Image, regions: seq<MemRegion>,
                       serial: nat)
    requires Mapped(mem, t, p, mem', t', p', KERNEL_BASE + serial, serial, DEVICE_PERMISSIONS, DEVICE)
    requires Aligned(regions) && AllMapped(mem, t.root, image, regions) && serial < MAP_LIMIT && serial % PAGE_SIZE == 0
    requires forall i: nat :: i < |regions| ==> !regions[i].HasPage(serial)
    ensures AllMapped(mem', t.root, image, regions)
  {
    hide Mapped, LinearAt;
    forall i: nat, pa: nat | i < |regions| && regions[i].HasPage(pa) && pa < MAP_LIMIT
      ensures LinearAt(mem', t.root, image, pa)
    {
      PagesAligned(regions[i], pa);
      LinearApart(serial, pa);
      assert RegionMapped(mem, t.root, image, regions[i], MAP_LIMIT);
      OtherMapKeepsLinear(mem, t, p, mem', t', p', image, KERNEL_BASE + serial, serial, DEVICE_PERMISSIONS, DEVICE, pa);
    }
  }

  lemma ImageFrames(p: Pool, regions: seq<MemRegion>, image: Image, fdt: nat, fdtSize: nat, b: nat)
    requires Reserved(p, regions, image, fdt, fdtSize) && Layout(image, b)
    ensures Run(b, 8) <= p.used && Run(b, 8) !! p.bitmaps && p.Within(b, 7) && InRegions(regions, b + 7)
    ensures forall f :: f in p.managed ==> InRegions(regions, f)
  {
    hide InRegions;
    var f, n := image.start / PAGE_SIZE, ImagePages(image);
    assert f <= b && b + 8 <= f + n;
    assert Run(b, 8) <= Run(f, n);
    forall g | g in Run(b, 8)
      ensures g !in p.bitmaps
    {
      assert image.start <= g * PAGE_SIZE && (g + 1) * PAGE_SIZE <= image.end;
    }
    var k: nat :| k < |p.spans| && p.spans[k].0 <= f && f + n <= p.spans[k].0 + p.spans[k].1;
    assert p.spans[k].0 <= b && b + 7 <= p.spans[k].0 + p.spans[k].1;
    assert b + 7 in Run(b, 8);
  }

  /** The kernel's tables are its root and pages that were free once the image was reserved. */
  lemma TablesOffPool(mem: Mem, p: Pool, mem': Mem, t: Tree, p': Pool, b: nat)
    requires Built(mem, FreshTree(b + 7), p, mem', t, p') && Run(b, 8) <= p.used
    ensures t.Tables() !! Run(b, 7) && t.root == b + 7
  {
    hide TreeOk, TreeSafe, Unrestricted;
    assert FreshTree(b + 7).Tables() == {b + 7};
    forall f | f in t.Tables()
      ensures f !in Run(b, 7)
    {
      assert f == b + 7 || f in p.Free();
      assert f in Run(b, 8) ==> f in p.used;
    }
  }

  /** Paths of the tables that RAM and the serial page need below the root of the kernel's map. */
  function KernelPaths(regions: seq<MemRegion>, serial: nat): set<seq<nat>> {
    MapPaths(regions) + Prefixes(KERNEL_BASE + serial)
  }

  /** Kernel map and serial page, as main sets them up: done exactly when everything is aligned and as many pages
    are free as tables are needed. */
  method MapKernel(k: Mapper, regions: seq<MemRegion>, image: Image, serial: nat, b: nat, ghost fdt: nat,
                   ghost fdtSize: nat)
    returns (ok: bool, ghost t: Tree)
    requires k.Valid() && Layout(image, b) && (b + 8) <= |k.m.mem| && k.m.kernelBase == 0
    requires Reserved(k.pages.pool, regions, image, fdt, fdtSize) && InRam(regions, |k.m.mem|)
    requires serial < MAP_LIMIT && forall i: nat :: i < |regions| ==> !regions[i].HasPage(serial)
    modifies k.pages`regions, k.pages`pool, k.m`mem
    ensures k.Valid()
    ensures ok <==>
            && |regions| > 0 && Aligned(regions) && serial % PAGE_SIZE == 0
            && |old(k.pages.pool).Free()| >= |KernelPaths(regions, serial)|
    ensures !ok ==> |regions| == 0 || !Aligned(regions) || serial % PAGE_SIZE != 0 || k.pages.pool.Free() == {}
    ensures ok ==> KernelMapped(k.m.mem, t, image, regions, serial, b)
    ensures ok ==> Built(old(k.m.mem)[b + 7 := ZeroFrame()], FreshTree(b + 7), old(k.pages.pool), k.m.mem, t,
                         k.pages.pool)
  {
    hide LeafInNumbers, TreeOk, TreeSafe, Built, Mapped, NotMapped, Inv, PathPermits, Missing, AllMapped, LinearAt,
         Leads, Aligned, SelfMapped, Reserved, InRegions, Walk, Progress, Paths, MapPaths, Prefixes, KernelMapped,
         Unrestricted;
    ghost var mem0, p0, rf := k.m.mem[b + 7 := ZeroFrame()], k.pages.pool, b + 7;
    ImageFrames(p0, regions, image, fdt, fdtSize, b);
    assert rf in Run(b, 8);
    var root := PaToVa(k.m.kernelBase, (b + 7) * PAGE_SIZE);
    SmallerSet(MapPaths(regions), KernelPaths(regions, serial));
    ok, t := SetupKernelMap(k, regions, root, image, rf);
    if !ok {
      return;
    }
    ghost var mem1, t1, p1 := k.m.mem, t, k.pages.pool;
    ProgressFacts(mem0, FreshTree(rf), p0, mem1, t1, p1, MapPaths(regions), serial + KERNEL_BASE, DEVICE_PERMISSIONS);
    ok, t := k.MapPage(root, serial + KERNEL_BASE, serial, DEVICE_PERMISSIONS, DEVICE, t1);
    SerialPageTried(mem0, p0, mem1, t1, p1, k.m.mem, t, k.pages.pool, regions, image, serial, b, ok);
  }

  /** The last mapping of the kernel's map: done, or refused for its alignment or for lack of pages. */
  lemma SerialPageTried(mem0: Mem, p0: Pool, mem1: Mem, t1: Tree, p1: Pool, mem: Mem, t: Tree, p: Pool,
                    regions: seq<MemRegion>, image: Image, serial: nat, b: nat, ok: bool)
    requires Progress(mem0, FreshTree(b + 7), p0, mem1, t1, p1, MapPaths(regions)) && Run(b, 8) <= p0.used
             && |mem0| <= MAX_FRAMES
    requires t1.root < |mem1|
             && (ok <==> serial % PAGE_SIZE == 0 && |p1.Free()| >= Missing(mem1, t1.root, 0, KERNEL_BASE + serial))
    requires ok ==> Mapped(mem1, t1, p1, mem, t, p, KERNEL_BASE + serial, serial, DEVICE_PERMISSIONS, DEVICE)
    requires Aligned(regions) && AllMapped(mem1, b + 7, image, regions)
    requires serial < MAP_LIMIT && forall i: nat :: i < |regions| ==> !regions[i].HasPage(serial)
    requires InRegions(regions, b + 7) && forall f :: f in p0.managed ==> InRegions(regions, f)
    ensures ok <==> serial % PAGE_SIZE == 0 && |p0.Free()| >= |KernelPaths(regions, serial)|
    ensures ok ==> KernelMapped(mem, t, image, regions, serial, b) && Built(mem0, FreshTree(b + 7), p0, mem, t, p)
  {
    hide Mapped, Progress, MapPaths, Prefixes, Aligned, AllMapped, InRegions, KernelMapped, Missing, Paths, Built;
    var all := KernelPaths(regions, serial);
    OnlyRootEmpty(regions, serial, b + 7);
    if ok {
      ProgressNext(mem0, FreshTree(b + 7), p0, mem1, t1, p1, MapPaths(regions), mem, t, p, KERNEL_BASE + serial, serial,
                   DEVICE_PERMISSIONS, DEVICE);
      ProgressBuilt(mem0, FreshTree(b + 7), p0, mem, t, p, all);
      ProgressBuilt(mem0, FreshTree(b + 7), p0, mem1, t1, p1, MapPaths(regions));
      ProgressFree(mem0, FreshTree(b + 7), p0, mem, t, p, all);
      KernelMapDone(mem0, p0, mem1, t1, p1, mem, t, p, regions, image, serial, b);
    } else if serial % PAGE_SIZE == 0 {
      ProgressStuck(mem0, FreshTree(b + 7), p0, mem1, t1, p1, MapPaths(regions), KERNEL_BASE + serial, all);
    }
  }

  lemma OnlyRootEmpty(regions: seq<MemRegion>, serial: nat, rf: nat)
    ensures KernelPaths(regions, serial) - Paths(FreshTree(rf)) == KernelPaths(regions, serial)
  {
    hide MapPaths, Prefixes;
    NoEmptyMapPath(regions);
    FreshPaths(rf, regions);
    NoneEmptyHere(KERNEL_BASE + serial);
  }

  lemma KernelMapDone(mem0: Mem, p0: Pool, mem1: Mem, t1: Tree, p1: Pool, mem: Mem, t: Tree, p: Pool,
                      regions: seq<MemRegion>, image: Image, serial: nat, b: nat)
    requires Built(mem0, FreshTree(b + 7), p0, mem1, t1, p1) && Run(b, 8) <= p0.used && |mem0| <= MAX_FRAMES
    requires Mapped(mem1, t1, p1, mem, t, p, KERNEL_BASE + serial, serial, DEVICE_PERMISSIONS, DEVICE)
    requires Built(mem0, FreshTree(b + 7), p0, mem, t, p) && Unrestricted(mem, t)
    requires Aligned(regions) && AllMapped(mem1, b + 7, image, regions)
    requires serial < MAP_LIMIT && serial % PAGE_SIZE == 0
             && forall i: nat :: i < |regions| ==> !regions[i].HasPage(serial)
    requires InRegions(regions, b + 7) && forall f :: f in p0.managed ==> InRegions(regions, f)
    ensures KernelMapped(mem, t, image, regions, serial, b)
  {
    hide TreeOk, TreeSafe, Built, Mapped, AllMapped, LinearAt, Leads, Aligned, SelfMapped, InRegions, Walk,
         Unrestricted;
    BuiltRoot(mem0, FreshTree(b + 7), p0, mem1, t1, p1);
    BuiltRoot(mem0, FreshTree(b + 7), p0, mem, t, p);
    SameSize(mem0, FreshTree(b + 7), p0, mem, t, p);
    TablesOffPool(mem0, p0, mem, t, p, b);
    SerialKeepsAll(mem1, t1, p1, mem, t, p, image, regions, serial);
    MapIsSelfMapped(mem0, p0, mem, t, p, image, regions, b + 7);
    SerialLeads(mem1, t1, p1, mem, t, p, serial);
    RootPositive(mem, t, 0);
  }

  lemma SerialLeads(mem: Mem, t: Tree, p: Pool, mem': Mem, t': Tree, p': Pool, serial: nat)
    requires Mapped(mem, t, p, mem', t', p', KERNEL_BASE + serial, serial, DEVICE_PERMISSIONS, DEVICE)
    ensures t.root < |mem'| && Leads(Walk(mem', t.root, KERNEL_BASE + serial), serial, DEVICE_PERMISSIONS, DEVICE)
  {
  }

  /** The serial page, too, is at KERNEL_BASE plus its address: device memory for EL1, which nobody executes. */
  lemma SerialAgrees(mem: Mem, t: Tree, image: Image, regions: seq<MemRegion>, serial: nat, b: nat)
    requires KernelMapped(mem, t, image, regions, serial, b) && serial % 0x1000 == 0 && serial < 0x1_0000_0000_0000
    ensures var w := Walk(mem, t.root, 0xFFFF_0000_0000_0000 + serial);
            && |w| == 4 && w[3] == serial + 0x60_0000_0000_0403 && OutputAddress(w[3]) == serial && AttrIndex(w[3]) == 0
            && Effective(w) == Access(true, true, false, false) && !PrivExecutes(w) && !UserExecutes(w)
  {
    hide TreeOk, Unrestricted, WalkFrom, Leads, OutputAddress, AttrIndex, Effective, PrivExecutes, UserExecutes,
         SelfMapped, AllMapped;
    WalkUnrestrictive(mem, t, KERNEL_BASE + serial);
    LeadsFour(Walk(mem, t.root, KERNEL_BASE + serial), serial, false, DEVICE);
    KernelWalk(Walk(mem, t.root, KERNEL_BASE + serial), serial, false, DEVICE);
    assert serial % 0x4_0000_0000_0000 == serial;
  }

  /** Memory outside the tables does not matter to the map. */
  lemma KernelMappedElsewhere(mem: Mem, mem': Mem, changed: set<nat>, t: Tree, image: Image, regions: seq<MemRegion>,
                              serial: nat, b: nat)
    requires KernelMapped(mem, t, image, regions, serial, b) && SameOutside(mem, mem', changed) && t.Tables() !! changed
    ensures KernelMapped(mem', t, image, regions, serial, b)
  {
    hide TreeOk, Leads, WalkFrom, LinearPermissions, Unrestricted, Unrestrictive;
    SameTables(mem, mem', t, changed);
    TreeElsewhere(mem, mem', t, changed);
    WalksElsewhere(mem, mem', t, changed);
    forall pa: nat | LinearAt(mem, t.root, image, pa)
      ensures LinearAt(mem', t.root, image, pa)
    {
      assert Walk(mem', t.root, KERNEL_BASE + pa) == Walk(mem, t.root, KERNEL_BASE + pa);
    }
    hide LinearAt;
    forall i: nat, pa: nat | i < |regions| && regions[i].HasPage(pa) && pa < MAP_LIMIT
      ensures LinearAt(mem', t.root, image, pa)
    {
      assert RegionMapped(mem, t.root, image, regions[i], MAP_LIMIT);
    }
  }

  /** high_half_main up to the point where the identity map's pages are free. */
  method EnterHighHalf(k: Mapper, b: nat, ghost t: Tree, ghost image: Image, ghost regions: seq<MemRegion>,
                       ghost serial: nat)
    requires k.Valid() && k.m.kernelBase == 0 && KernelMapped(k.m.mem, t, image, regions, serial, b)
             && TreeSafe(t, k.pages.pool)
    requires k.pages.pool.Within(b, 7) && Run(b, 7) !! k.pages.pool.bitmaps && (b + 8) <= |k.m.mem|
    modifies k.m, k.pages
    ensures k.Valid() && k.m.kernelBase == KERNEL_BASE
    ensures forall c: nat :: c < |k.pages.chunks| && k.pages.chunks[c].initialized ==>
                          VaToPa(k.m.kernelBase, k.pages.chunks[c].bitmap) == k.pages.chunks[c].memBase
    ensures FramesReturned(old(k.pages.pool), old(k.m.mem), k.pages.pool, k.m.mem, b, 7)
    ensures KernelMapped(k.m.mem, t, image, regions, serial, b) && TreeSafe(t, k.pages.pool)
  {
    hide Inv, KernelMapped, PagesReturned, Held;
    ghost var mem0, p0 := k.m.mem, k.pages.pool;
    k.m.UpdateKernelBaseVa();
    k.pages.FixupPageAllocator();
    var region := PageVa(KERNEL_BASE, b);
    assert VaToPa(k.m.kernelBase, region) == b * PAGE_SIZE && b * PAGE_SIZE / PAGE_SIZE == b;
    k.pages.PageFree(VaToPa(k.m.kernelBase, region), ID_MAP_NUM_PAGES + 1);
    KernelMappedElsewhere(mem0, k.m.mem, p0.bitmaps, t, image, regions, serial, b);
    PoolOffTables(mem0, t, image, regions, serial, b);
  }

  lemma PoolOffTables(mem: Mem, t: Tree, image: Image, regions: seq<MemRegion>, serial: nat, b: nat)
    requires KernelMapped(mem, t, image, regions, serial, b)
    ensures t.Tables() !! Run(b, 7)
  {
  }

  /** Pages of the image and the device tree, without the identity map's pool. */
  function Kept(image: Image, fdt: nat, fdtSize: nat, b: nat): set<nat> {
    Run(image.start / PAGE_SIZE, ImagePages(image)) + Run(fdt / PAGE_SIZE, NumPages(fdtSize)) - Run(b, 7)
  }

  /** The state boot reaches: the kernel can run on its own map, which leads to every page that the allocator has
    or may hand out, the identity map's pages among the free ones. */
  ghost predicate Booted(mem: Mem, t: Tree, p: Pool, image: Image, regions: seq<MemRegion>, serial: nat, b: nat,
                         kept: set<nat>)
  {
    && KernelMapped(mem, t, image, regions, serial, b) && HighHalf(mem, t, p, image)
    && kept <= p.used && Run(b, 7) <= p.Free() && p.bitmaps == BitmapFrames(regions)
    && (forall f :: f in kept && f in t.Tables() ==> f == b + 7)
  }

  lemma BootDone(mem0: Mem, p0: Pool, mem1: Mem, p1: Pool, mem: Mem, t: Tree, p: Pool, image: Image,
                 regions: seq<MemRegion>, serial: nat, b: nat, fdt: nat, fdtSize: nat)
    requires Reserved(p0, regions, image, fdt, fdtSize) && Layout(image, b)
    requires Built(mem0, FreshTree(b + 7), p0, mem1, t, p1) && FramesReturned(p1, mem1, p, mem, b, 7)
    requires KernelMapped(mem, t, image, regions, serial, b) && |mem| <= MAX_FRAMES && p0.bitmaps <= p0.used
    requires forall f :: f in p0.managed ==> f < |mem|
    ensures Booted(mem, t, p, image, regions, serial, b, Kept(image, fdt, fdtSize, b))
  {
    hide TreeOk, Unrestricted, LinearAt, InRegions, AllMapped, Aligned, Leads, Walk, SelfMapped, Reserved, Kept,
         BitmapFrames;
    ImageFrames(p0, regions, image, fdt, fdtSize, b);
    assert FreshTree(b + 7).Tables() == {b + 7};
    assert b + 7 in Run(b, 8) && p0.used <= p0.managed by { UsedManaged(p0, regions, image, fdt, fdtSize); }
    forall f | f in t.Tables()
      ensures f in p.used && f !in p.bitmaps
    {
      assert f == b + 7 || f in p0.Free();
    }
    forall f | f in p.managed
      ensures LinearAt(mem, t.root, image, f * PAGE_SIZE)
    {
      InRegionsMapped(mem, t.root, image, regions, f);
    }
    assert Run(b, 7) <= Run(b, 8);
    KeptUsed(p0, regions, image, fdt, fdtSize, b);
    assert p0.bitmaps == BitmapFrames(regions) by { BitmapsAre(p0, regions, image, fdt, fdtSize); }
  }

  lemma BitmapsAre(p: Pool, regions: seq<MemRegion>, image: Image, fdt: nat, fdtSize: nat)
    requires Reserved(p, regions, image, fdt, fdtSize)
    ensures p.bitmaps == BitmapFrames(regions)
  {
  }

  lemma KeptUsed(p: Pool, regions: seq<MemRegion>, image: Image, fdt: nat, fdtSize: nat, b: nat)
    requires Reserved(p, regions, image, fdt, fdtSize)
    ensures Kept(image, fdt, fdtSize, b) <= p.used - Run(b, 7)
  {
  }

  lemma UsedManaged(p: Pool, regions: seq<MemRegion>, image: Image, fdt: nat, fdtSize: nat)
    requires Reserved(p, regions, image, fdt, fdtSize)
    ensures p.used <= p.managed
  {
  }

  lemma ManagedInRam(mem: Mem, base: nat, chunks: seq<Chunk>, rs: seq<Region>, p: Pool)
    requires Inv(mem, base, chunks, rs, p)
    ensures p.bitmaps <= p.used && forall f :: f in p.managed ==> f < |mem|
  {
    forall f | f in p.managed
      ensures f < |mem|
    {
      var k: nat :| k < |rs| && rs[k].Holds(f);
      KnownChunk(mem, base, chunks, rs, p, k);
    }
  }

  /** What boot needs of its inputs, memory for the tables apart. */
  ghost predicate Bootable(regions: seq<MemRegion>, image: Image, serial: nat, fdt: nat, fdtSize: nat) {
    && serial % PAGE_SIZE == 0 && |IdMapPaths(image, serial)| <= ID_MAP_NUM_PAGES - 1
    && 0 < |regions| <= 10 && AllUsable(regions, |regions|, image) && Aligned(regions)
    && Holdable(regions, image.start, ImagePages(image)) && Holdable(regions, fdt, NumPages(fdtSize))
  }

  /** The loader put the header of the device tree outside the identity map's pool. */
  ghost predicate OffPool(fdt: nat, b: nat) {
    fdt + 8 <= b * PAGE_SIZE || (b + 7) * PAGE_SIZE <= fdt
  }

  /** What is kept reads as the loader left it, but for the bitmaps' pages and the root of the kernel's map. */
  ghost predicate KeptIntact(mem: Mem, mem': Mem, kept: set<nat>, regions: seq<MemRegion>, b: nat) {
    && |mem| == |mem'|
    && forall f: nat :: f < |mem| && f in kept && f !in BitmapFrames(regions) && f != b + 7 ==> mem'[f] == mem[f]
  }

  /** main and high_half_main up to the point where the identity map is gone. */
  method Boot(k: Mapper, regions: seq<MemRegion>, image: Image, b: nat, serial: nat, fdt: nat, valid: bool)
    returns (ok: bool, ghost t: Tree)
    requires k.Valid() && k.m.kernelBase == 0 && k.pages.pool == EmptyPool()
    requires Layout(image, b) && image.end <= |k.m.mem| * PAGE_SIZE && k.m.mem[b + 1] == ZeroFrame()
    requires Separate(regions) && InRam(regions, |k.m.mem|) && fdt + 8 <= |k.m.mem| * PAGE_SIZE && OffPool(fdt, b)
    requires serial < MAP_LIMIT && forall i: nat :: i < |regions| ==> !regions[i].HasPage(serial)
    modifies k.m, k.pages
    ensures k.Valid()
    ensures var size := SizeRead(old(k.m.mem), regions, image, fdt);
            && (ok <==>
                && valid && Bootable(regions, image, serial, fdt, size)
                && |FreeFrames(regions, image, fdt, size)| >= |KernelPaths(regions, serial)|)
            && (!ok ==> !valid || !Bootable(regions, image, serial, fdt, size) || k.pages.pool.Free() == {})
    ensures ok ==>
              var kept := Kept(image, fdt, SizeRead(old(k.m.mem), regions, image, fdt), b);
              && k.m.kernelBase == KERNEL_BASE && Booted(k.m.mem, t, k.pages.pool, image, regions, serial, b, kept)
              && KeptIntact(old(k.m.mem), k.m.mem, kept, regions, b)
    ensures ok ==> forall c: nat :: c < |k.pages.chunks| && k.pages.chunks[c].initialized ==>
                                 VaToPa(k.m.kernelBase, k.pages.chunks[c].bitmap) == k.pages.chunks[c].memBase
  {
    hide Inv, KernelMapped, Reserved, InRam, Separate, Built, TreeOk, IdMapped, IdMapPaths, AllUsable, Holdable, Booted,
         InRegions, Kept, Aligned, KernelPaths, FreeFrames, SizeRead, AllExact, Header, TreeKeptIff, KeptIntact;
    ghost var start, size := k.m.mem, SizeRead(k.m.mem, regions, image, fdt);
    ok, t := SetupKernelIdMap(k, b, image, serial);
    if !ok {
      return;
    }
    ghost var mapped := k.m.mem;
    BootLayout(image, b, |k.m.mem|);
    SizeOffPool(start, mapped, regions, image, fdt, b);
    ok := SetupPageAllocator(k.pages, regions, image, fdt, valid);
    if !ok {
      return;
    }
    PageSetup.SameRam(mapped, k.m.mem, regions, |regions|, k.pages.pool.used);
    ghost var setUp, mem0, p0 := k.m.mem, k.m.mem[b + 7 := ZeroFrame()], k.pages.pool;
    ReservedFree(p0, regions, image, fdt, size);
    ManagedInRam(k.m.mem, k.m.kernelBase, k.pages.chunks, k.pages.regions, p0);
    ok, t := MapKernel(k, regions, image, serial, b, fdt, size);
    if !ok {
      return;
    }
    ghost var mem1, p1 := k.m.mem, k.pages.pool;
    ImageFrames(p0, regions, image, fdt, size, b);
    PoolKept(mem0, FreshTree(b + 7), p0, mem1, t, p1);
    assert Run(b, 7) <= Run(b, 8);
    EnterHighHalf(k, b, t, image, regions, serial);
    BootDone(mem0, p0, mem1, p1, k.m.mem, t, k.pages.pool, image, regions, serial, b, fdt, size);
    ContentsStay(start, mapped, setUp, mem1, k.m.mem, p0, t, p1, k.pages.pool, regions, image, b, fdt, size);
  }

  /** The identity map leaves the header alone. */
  lemma SizeOffPool(mem: Mem, mem': Mem, regions: seq<MemRegion>, image: Image, fdt: nat, b: nat)
    requires SameOutside(mem, mem', Run(b, ID_MAP_NUM_PAGES + 1)) && fdt + 8 <= |mem| * PAGE_SIZE && OffPool(fdt, b)
    ensures SizeRead(mem', regions, image, fdt) == SizeRead(mem, regions, image, fdt)
  {
    hide BitmapHolds, Packed, ByteIn;
    forall a: nat | fdt <= a < fdt + 8
      ensures a / PAGE_SIZE < |mem| && ByteRead(mem', regions, image, a) == ByteRead(mem, regions, image, a)
    {
      assert a / PAGE_SIZE !in Run(b, ID_MAP_NUM_PAGES + 1);
    }
  }

  lemma ContentsStay(mem0: Mem, mapped: Mem, setUp: Mem, mem1: Mem, mem: Mem, p0: Pool, t: Tree, p1: Pool, p: Pool,
                     regions: seq<MemRegion>, image: Image, b: nat, fdt: nat, size: nat)
    requires SameOutside(mem0, mapped, Run(b, 7)) && AllExact(mapped, setUp, regions, |regions|, p0.used)
             && b + 7 < |setUp|
    requires Built(setUp[b + 7 := ZeroFrame()], FreshTree(b + 7), p0, mem1, t, p1)
             && FramesReturned(p1, mem1, p, mem, b, 7)
    requires Reserved(p0, regions, image, fdt, size)
    ensures KeptIntact(mem0, mem, Kept(image, fdt, size, b), regions, b)
  {
    hide BitmapFrames, RegionExact, TreeOk, PageTables.TreeSafe, Unrestricted, InRegions, ManagedFrames, ImagePages,
         NumPages;
    assert regions[..|regions|] == regions;
    assert FreshTree(b + 7).Tables() == {b + 7};
    forall f: nat | f < |mem0| && f in Kept(image, fdt, size, b) && f !in BitmapFrames(regions) && f != b + 7
      ensures mem[f] == mem0[f]
    {
      assert f in p0.used && f !in Run(b, 7);
      assert f !in t.Tables();
    }
  }

  lemma BootLayout(image: Image, b: nat, frames: nat)
    requires Layout(image, b) && image.end <= frames * PAGE_SIZE && frames <= MAX_FRAMES
    ensures image.start <= image.end && image.end + PAGE_SIZE < ADDRESS_SPACE && b + 8 <= frames
  {
  }

  lemma PoolKept(mem: Mem, t: Tree, p: Pool, mem': Mem, t': Tree, p': Pool)
    requires Built(mem, t, p, mem', t', p')
    ensures p'.spans == p.spans && p'.bitmaps == p.bitmaps && p'.managed == p.managed && TreeSafe(t', p')
            && |mem'| == |mem|
    ensures forall f: nat, n: nat :: p.Within(f, n) ==> p'.Within(f, n)
  {
  }
}
