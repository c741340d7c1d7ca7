/** The higher-half kernel map: every page of RAM at KERNEL_BASE plus its physical address. */
module KernelMap {
  import opened Memory
  import opened PhysicalPages
  import opened PageAllocation
  import opened Descriptors
  import opened TranslationTree
  import opened PageTables
  import opened TableGrowth

  /** `memory_region_t` */
  datatype MemRegion = MemRegion(base: nat, size: nat) {
    /** Page `pa` is one of those map_mem_region visits. */
    ghost predicate HasPage(pa: nat) {
      base <= pa < base + size && (pa - base) % PAGE_SIZE == 0
    }
  }

  /** End of the physical addresses that the linear map can hold. */
  const MAP_LIMIT: nat := MAX_FRAMES * PAGE_SIZE

  /** Permissions of a page of the linear map: executable inside the kernel image only. */
  function LinearPermissions(image: Image, pa: nat): Permissions {
    Permissions(true, true, image.start <= pa < image.end, false)
  }

  /** Physical page `pa` is mapped at KERNEL_BASE + pa with these permissions, and no table on the way
    restricts anything. */
  predicate LinearAt(mem: Mem, root: nat, image: Image, pa: nat) {
    && root < |mem|
    && var w := Walk(mem, root, KERNEL_BASE + pa);
       Leads(w, pa, LinearPermissions(image, pa), NORMAL) && Unrestrictive(w)
  }

  lemma LinearPage(pa: nat)
    requires pa < MAP_LIMIT
    ensures PageOf(KERNEL_BASE + pa) == pa / PAGE_SIZE
  {
    assert KERNEL_BASE == 0xFFFF * MAP_LIMIT;
    assert (KERNEL_BASE + pa) / PAGE_SIZE == 0xFFFF * 0x10_0000_0000 + pa / PAGE_SIZE;
  }

  /** Different pages of the linear map are different pages for the walk. */
  lemma LinearApart(pa: nat, pa': nat)
    requires pa < MAP_LIMIT && pa' < MAP_LIMIT && pa % PAGE_SIZE == 0 && pa' % PAGE_SIZE == 0
    ensures SamePage(KERNEL_BASE + pa, KERNEL_BASE + pa') <==> pa == pa'
  {
    hide SamePage, PageOf;
    SamePageIff(KERNEL_BASE + pa, KERNEL_BASE + pa');
    LinearPage(pa);
    LinearPage(pa');
  }

  /** A page of the linear map that has just been mapped. */
  lemma MappedLinear(mem: Mem, t: Tree, p: Pool, mem': Mem, t': Tree, p': Pool, image: Image, pa: nat)
    requires Mapped(mem, t, p, mem', t', p', KERNEL_BASE + pa, pa, LinearPermissions(image, pa), NORMAL)
    requires Unrestricted(mem, t)
    ensures LinearAt(mem', t.root, image, pa)
  {
    hide Built, WalkFrom, SamePage, Unrestricted, PageDescriptor, TablePermits, NoRestriction;
    MappedBuilt(mem, t, p, mem', t', p', KERNEL_BASE + pa, pa, LinearPermissions(image, pa), NORMAL);
    StaysUnrestricted(mem, t, p, mem', t', p');
    WalkUnrestrictive(mem', t', KERNEL_BASE + pa);
  }

  /** Any other mapping keeps the linear pages it does not overwrite. */
  lemma OtherMapKeepsLinear(mem: Mem, t: Tree, p: Pool, mem': Mem, t': Tree, p': Pool, image: Image,
                            va: nat, pa: nat, perms: Permissions, memType: MemType, pa': nat)
    requires Mapped(mem, t, p, mem', t', p', va, pa, perms, memType)
    requires !SamePage(va, KERNEL_BASE + pa') && LinearAt(mem, t.root, image, pa')
    ensures LinearAt(mem', t.root, image, pa')
  {
    hide Built, Leads, Unrestrictive, WalkFrom, SamePage;
  }

  /** Mapping one page linearly keeps every other linear page mapped. */
  lemma MapKeepsLinear(mem: Mem, t: Tree, p: Pool, mem': Mem, t': Tree, p': Pool, image: Image, pa: nat, pa': nat)
    requires Mapped(mem, t, p, mem', t', p', KERNEL_BASE + pa, pa, LinearPermissions(image, pa), NORMAL)
             && Unrestricted(mem, t)
    requires pa < MAP_LIMIT && pa' < MAP_LIMIT && pa % PAGE_SIZE == 0 && pa' % PAGE_SIZE == 0
    requires pa' == pa || LinearAt(mem, t.root, image, pa')
    ensures LinearAt(mem', t.root, image, pa')
  {
    hide Mapped, LinearAt, SamePage, Unrestricted;
    LinearApart(pa, pa');
    if pa' == pa {
      MappedLinear(mem, t, p, mem', t', p', image, pa);
    } else {
      OtherMapKeepsLinear(mem, t, p, mem', t', p', image, KERNEL_BASE + pa, pa, LinearPermissions(image, pa), NORMAL,
                          pa');
    }
  }

  /** What the walk of a page says that was mapped for EL1, readable and writable, through tables that restrict
    nothing: the leaf as a number, where it leads, and who may do what. */
  lemma KernelWalk(w: seq<Bits.Word>, pa: nat, execute: bool, memType: MemType)
    requires Leads(w, pa, Permissions(true, true, execute, false), memType) && Unrestrictive(w) && pa % 0x1000 == 0
    ensures |w| == 4
    ensures w[3] == pa % 0x4_0000_0000_0000 + 0x403
                    + (if memType == NORMAL then 0x304 else 0) + (if execute then 0 else 0x60_0000_0000_0000)
    ensures OutputAddress(w[3]) == pa % 0x4_0000_0000_0000 && AttrIndex(w[3]) == (if memType == NORMAL then 1 else 0)
    ensures Effective(w) == Access(true, true, false, false)
    ensures PrivExecutes(w) <==> execute
    ensures UserExecutes(w) <==> execute
  {
    hide PageDescriptor, Effective, OutputAddress, AttrIndex, PrivExecutes, UserExecutes, TablePermits;
    var perms := Permissions(true, true, execute, false);
    PageInNumbers(pa, perms, memType);
    PageDescriptorFields(pa, perms, memType);
    EffectiveAsRequested(w, pa, perms, memType);
    ExecutionAtBothLevels(w, pa, perms, memType);
    assert Effective(w).privRead by { PrivAccess(w); }
  }

  /** What the walk of a linear page says. */
  lemma LinearWalk(w: seq<Bits.Word>, image: Image, pa: nat)
    requires Leads(w, pa, LinearPermissions(image, pa), NORMAL) && Unrestrictive(w) && pa < MAP_LIMIT
             && pa % PAGE_SIZE == 0
    ensures |w| == 4 && OutputAddress(w[3]) == pa && AttrIndex(w[3]) == 1
            && Effective(w) == Access(true, true, false, false)
    ensures w[3] == pa + 0x707 + (if image.start <= pa < image.end then 0 else 0x60_0000_0000_0000)
    ensures PrivExecutes(w) <==> image.start <= pa < image.end
    ensures UserExecutes(w) <==> image.start <= pa < image.end
  {
    hide Leads, Effective, OutputAddress, AttrIndex, PrivExecutes, UserExecutes;
    KernelWalk(w, pa, image.start <= pa < image.end, NORMAL);
    assert pa % 0x4_0000_0000_0000 == pa;
  }

  lemma PrivAccess(w: seq<Bits.Word>)
    requires Unrestrictive(w)
    ensures Effective(w).privRead && (Effective(w).privWrite <==> Ap(w[3]) / 2 != 1)
  {
    hide Bits.Field;
  }

  /** The walk of a linear page gives what the arithmetic of `va_to_pa` gives after the switch: readable and
    writable at EL1 only, and executable exactly inside the image. EL0 cannot read or write such a page, but
    it can execute one exactly where EL1 can, since UXN is clear there as well. */
  lemma LinearAgrees(mem: Mem, root: nat, image: Image, pa: nat)
    requires LinearAt(mem, root, image, pa) && pa < MAP_LIMIT && pa % PAGE_SIZE == 0
    ensures var w := Walk(mem, root, PaToVa(KERNEL_BASE, pa));
            && |w| == 4
            && OutputAddress(w[3]) == pa == VaToPa(KERNEL_BASE, PaToVa(KERNEL_BASE, pa))
            && Effective(w) == Access(true, true, false, false)
            && (PrivExecutes(w) <==> image.start <= pa < image.end)
            && (UserExecutes(w) <==> image.start <= pa < image.end)
            && AttrIndex(w[3]) == 1
            && w[3] == pa + 0x707 + (if image.start <= pa < image.end then 0 else 0x60_0000_0000_0000)
  {
    hide WalkFrom, Leads, Effective, OutputAddress, AttrIndex, PrivExecutes, UserExecutes;
    LinearMap(KERNEL_BASE, pa);
    LinearWalk(Walk(mem, root, KERNEL_BASE + pa), image, pa);
    assert Walk(mem, root, PaToVa(KERNEL_BASE, pa)) == Walk(mem, root, KERNEL_BASE + pa);
  }

  // ---- what redirecting a kernel pointer does

  /** A kernel pointer into frame `f` leads where the arithmetic says, and can be read and written there. */
  predicate PointerAgrees(mem: Mem, root: nat, f: nat) {
    && root < |mem|
    && var w := Walk(mem, root, KERNEL_BASE + f * PAGE_SIZE);
       |w| == 4 && OutputAddress(w[3]) == f * PAGE_SIZE && Effective(w).privRead && Effective(w).privWrite
  }

  lemma LinearPointer(mem: Mem, root: nat, image: Image, f: nat)
    requires LinearAt(mem, root, image, f * PAGE_SIZE) && f < MAX_FRAMES
    ensures PointerAgrees(mem, root, f)
  {
    hide WalkFrom, Leads, Effective, OutputAddress, PrivExecutes, UserExecutes, AttrIndex;
    LinearWalk(Walk(mem, root, KERNEL_BASE + f * PAGE_SIZE), image, f * PAGE_SIZE);
  }

  /** Every byte of a linear page is translated to the address that the arithmetic gives, for EL1 to read and write. */
  lemma LinearByte(mem: Mem, root: nat, image: Image, f: nat, o: nat)
    requires LinearAt(mem, root, image, f * PAGE_SIZE) && f < MAX_FRAMES && o < PAGE_SIZE
    ensures var w := Walk(mem, root, PaToVa(KERNEL_BASE, f * PAGE_SIZE + o));
            && |w| == 4 && OutputAddress(w[3]) == f * PAGE_SIZE && Effective(w) == Access(true, true, false, false)
            && VaToPa(KERNEL_BASE, PaToVa(KERNEL_BASE, f * PAGE_SIZE + o)) == f * PAGE_SIZE + o
  {
    hide WalkFrom, OutputAddress, Effective, PrivExecutes, UserExecutes, AttrIndex, Leads, Unrestrictive;
    LinearMap(KERNEL_BASE, f * PAGE_SIZE + o);
    var va, start := PaToVa(KERNEL_BASE, f * PAGE_SIZE + o), KERNEL_BASE + f * PAGE_SIZE;
    LinearWalk(Walk(mem, root, start), image, f * PAGE_SIZE);
    assert PageOf(va) == PageOf(start) by { assert va == start + o && va / PAGE_SIZE == start / PAGE_SIZE; }
    SamePageIff(va, start);
    SamePageWalk(mem, root, 0, va, start);
  }

  /** What a granted readable mapping makes of the page it is for. */
  lemma RemappedPage(mem: Mem, t: Tree, p: Pool, mem': Mem, t': Tree, p': Pool,
                     va: nat, pa: nat, perms: Permissions, memType: MemType, f: nat)
    requires Mapped(mem, t, p, mem', t', p', va, pa, perms, memType) && Unrestricted(mem, t) && pa % PAGE_SIZE == 0
    requires SamePage(va, KERNEL_BASE + f * PAGE_SIZE)
    ensures PointerAgrees(mem', t.root, f) <==> perms.read && perms.write && pa % 0x4_0000_0000_0000 == f * PAGE_SIZE
    ensures perms.read ==>
              |Walk(mem', t.root, KERNEL_BASE + f * PAGE_SIZE)| == 4
              && OutputAddress(Walk(mem', t.root, KERNEL_BASE + f * PAGE_SIZE)[3]) == pa % 0x4_0000_0000_0000
  {
    hide Built, WalkFrom, PageDescriptor, OutputAddress, Unrestricted, Bits.Field;
    MappedBuilt(mem, t, p, mem', t', p', va, pa, perms, memType);
    StaysUnrestricted(mem, t, p, mem', t', p');
    WalkUnrestrictive(mem', t', va);
    SamePageWalk(mem', t.root, 0, va, KERNEL_BASE + f * PAGE_SIZE);
    LeafOf(pa, perms, memType);
    PageDescriptorFields(pa, perms, memType);
    hide SamePage, TablePermits;
    var w := Walk(mem', t.root, va);
    if perms.read {
      assert Unrestrictive(w);
      PrivAccess(w);
    }
  }

  /** All kernel pointers into these frames lead where the arithmetic says. */
  ghost predicate PointersAgree(mem: Mem, root: nat, frames: set<nat>) {
    forall f :: f in frames ==> PointerAgrees(mem, root, f)
  }

  /** A granted mapping keeps pointers and walks in agreement exactly when it is for no page of the frames'
    linear map, or maps such a page readable and writable to the very frame it stands for. */
  lemma AgreementKept(mem: Mem, t: Tree, p: Pool, mem': Mem, t': Tree, p': Pool,
                      va: nat, pa: nat, perms: Permissions, memType: MemType, frames: set<nat>)
    requires Mapped(mem, t, p, mem', t', p', va, pa, perms, memType) && Unrestricted(mem, t) && pa % PAGE_SIZE == 0
    requires PointersAgree(mem, t.root, frames)
    ensures PointersAgree(mem', t.root, frames) <==>
            forall f :: f in frames && SamePage(va, KERNEL_BASE + f * PAGE_SIZE) ==>
              perms.read && perms.write && pa % 0x4_0000_0000_0000 == f * PAGE_SIZE
  {
    hide Mapped, PointerAgrees, SamePage, Unrestricted;
    forall f | f in frames
      ensures PointerAgrees(mem', t.root, f) <==>
              (SamePage(va, KERNEL_BASE + f * PAGE_SIZE) ==>
               perms.read && perms.write && pa % 0x4_0000_0000_0000 == f * PAGE_SIZE)
    {
      if SamePage(va, KERNEL_BASE + f * PAGE_SIZE) {
        RemappedPage(mem, t, p, mem', t', p', va, pa, perms, memType, f);
      } else {
        OtherPointer(mem, t, p, mem', t', p', va, pa, perms, memType, f);
      }
    }
  }

  lemma OtherPointer(mem: Mem, t: Tree, p: Pool, mem': Mem, t': Tree, p': Pool,
                     va: nat, pa: nat, perms: Permissions, memType: MemType, f: nat)
    requires Mapped(mem, t, p, mem', t', p', va, pa, perms, memType) && !SamePage(va, KERNEL_BASE + f * PAGE_SIZE)
    requires PointerAgrees(mem, t.root, f)
    ensures PointerAgrees(mem', t.root, f)
  {
    hide Built, WalkFrom, Leads, SamePage, OutputAddress, Effective;
  }

  // ---- map_mem_region and setup_kernel_map

  /** Every page visited so far is mapped. */
  ghost predicate RegionMapped(mem: Mem, root: nat, image: Image, r: MemRegion, upTo: nat) {
    forall pa: nat :: r.HasPage(pa) && pa < upTo ==> LinearAt(mem, root, image, pa)
  }

  ghost predicate AllMapped(mem: Mem, root: nat, image: Image, regions: seq<MemRegion>) {
    forall i: nat :: i < |regions| ==> RegionMapped(mem, root, image, regions[i], MAP_LIMIT)
  }

  ghost predicate Aligned(regions: seq<MemRegion>) {
    forall i: nat :: i < |regions| && regions[i].size > 0 ==> regions[i].base % PAGE_SIZE == 0
  }

  lemma PagesAligned(r: MemRegion, pa: nat)
    requires r.HasPage(pa) && r.base % PAGE_SIZE == 0
    ensures pa % PAGE_SIZE == 0
  {
  }

  /** One more linear page: nothing mapped so far is lost. */
  lemma LinearStep(mem: Mem, t: Tree, p: Pool, mem': Mem, t': Tree, p': Pool, image: Image, r: MemRegion, pa: nat,
                   done: seq<MemRegion>)
    requires Mapped(mem, t, p, mem', t', p', KERNEL_BASE + pa, pa, LinearPermissions(image, pa), NORMAL)
             && Unrestricted(mem, t)
    requires r.HasPage(pa) && r.base % PAGE_SIZE == 0 && r.base + r.size <= MAP_LIMIT
             && RegionMapped(mem, t.root, image, r, pa)
    requires Aligned(done) && AllMapped(mem, t.root, image, done)
    ensures RegionMapped(mem', t.root, image, r, pa + PAGE_SIZE)
    ensures AllMapped(mem', t.root, image, done)
  {
    hide Mapped, LinearAt, Unrestricted;
    PagesAligned(r, pa);
    forall pa': nat | r.HasPage(pa') && pa' < pa + PAGE_SIZE
      ensures LinearAt(mem', t.root, image, pa')
    {
      PagesAligned(r, pa');
      assert pa' < pa || pa' == pa;
      MapKeepsLinear(mem, t, p, mem', t', p', image, pa, pa');
    }
    forall i: nat, pa': nat | i < |done| && done[i].HasPage(pa') && pa' < MAP_LIMIT
      ensures LinearAt(mem', t.root, image, pa')
    {
      PagesAligned(done[i], pa');
      assert RegionMapped(mem, t.root, image, done[i], MAP_LIMIT);
      MapKeepsLinear(mem, t, p, mem', t', p', image, pa, pa');
    }
  }

  /** Paths of the tables on the way of a region's pages. */
  function RegionPaths(r: MemRegion): set<seq<nat>> {
    PagePaths(KERNEL_BASE + r.base, NumPages(r.size))
  }

  /** Paths of the tables that the linear map of these regions needs below its root. */
  function MapPaths(regions: seq<MemRegion>): set<seq<nat>> {
    if regions == [] then {} else MapPaths(regions[..|regions| - 1]) + RegionPaths(regions[|regions| - 1])
  }

  lemma {:induction false} MapPathsGrow(regions: seq<MemRegion>, i: nat)
    requires i <= |regions|
    ensures MapPaths(regions[..i]) <= MapPaths(regions)
    decreases |regions|
  {
    hide RegionPaths;
    if i < |regions| {
      var front := regions[..|regions| - 1];
      MapPathsGrow(front, i);
      assert front[..i] == regions[..i];
    } else {
      assert regions[..i] == regions;
    }
  }

  lemma {:induction false} NoEmptyMapPath(regions: seq<MemRegion>)
    ensures [] !in MapPaths(regions)
  {
    if regions != [] {
      NoEmptyMapPath(regions[..|regions| - 1]);
      NoEmptyPath(KERNEL_BASE + regions[|regions| - 1].base, NumPages(regions[|regions| - 1].size));
    }
  }

  lemma MapPathsNext(regions: seq<MemRegion>, i: nat)
    requires i < |regions|
    ensures MapPaths(regions[..i + 1]) == MapPaths(regions[..i]) + RegionPaths(regions[i]) <= MapPaths(regions)
  {
    hide RegionPaths;
    MapPathsGrow(regions, i + 1);
    assert regions[..i + 1][..i] == regions[..i];
  }

  lemma NoPages(v: nat)
    ensures PagePaths(v, 0) == {}
  {
  }

  /** Pages of a range of `size` bytes. */
  lemma PageNumber(size: nat, n: nat)
    ensures n * PAGE_SIZE < size <==> n < NumPages(size)
  {
  }

  /** map_mem_region: it succeeds exactly when the region is aligned, or empty, and enough pages are free for
    the tables that are missing. */
  method MapMemRegion(k: Mapper, r: MemRegion, root: nat, image: Image, ghost t: Tree, ghost done: seq<MemRegion>)
    returns (ok: bool, ghost t': Tree)
    requires k.Valid() && TreeOk(k.m.mem, t) && TreeSafe(t, k.pages.pool) && Unrestricted(k.m.mem, t)
    requires root == PageVa(k.m.kernelBase, t.root) && r.base + r.size <= MAP_LIMIT
    requires Aligned(done) && AllMapped(k.m.mem, t.root, image, done)
    modifies k.pages`regions, k.pages`pool, k.m`mem
    ensures k.Valid() && Built(old(k.m.mem), t, old(k.pages.pool), k.m.mem, t', k.pages.pool)
    ensures ok <==>
            && (r.size > 0 ==> r.base % PAGE_SIZE == 0)
            && |old(k.pages.pool).Free()| >= |RegionPaths(r) - Paths(t)|
    ensures !ok ==> r.size > 0 && (r.base % PAGE_SIZE != 0 || k.pages.pool.Free() == {})
    ensures ok ==> Progress(old(k.m.mem), t, old(k.pages.pool), k.m.mem, t', k.pages.pool, RegionPaths(r))
    ensures ok ==> AllMapped(k.m.mem, t.root, image, done) && RegionMapped(k.m.mem, t.root, image, r, MAP_LIMIT)
  {
    hide LeafInNumbers, TreeOk, TreeSafe, Built, Mapped, NotMapped, PathPermits, Missing, Inv, Unrestricted, Progress,
         Paths, RegionPaths, NumPages, AllMapped, RegionMapped, Aligned, VisitedUpTo;
    ghost var mem0, p0 := k.m.mem, k.pages.pool;
    t' := t;
    AllFacts(mem0, k.m.kernelBase, k.pages.chunks, k.pages.regions, p0);
    NoneVisited(mem0, t, p0, image, r, done);
    var cur := r.base;
    var end := r.base + r.size;
    ghost var n := 0;
    while cur < end
      invariant k.Valid() && cur == r.base + n * PAGE_SIZE
      invariant VisitedUpTo(mem0, t, p0, k.m.mem, t', k.pages.pool, image, r, done, n)
    {
      var perms := LinearPermissions(image, cur);
      ghost var mem1, t1, p1 := k.m.mem, t', k.pages.pool;
      VisitFacts(mem0, t, p0, mem1, t1, p1, image, r, done, n, perms);
      ok, t' := k.MapPage(root, cur + KERNEL_BASE, cur, perms, NORMAL, t1);
      PageVisited(mem0, t, p0, mem1, t1, p1, k.m.mem, t', k.pages.pool, image, r, done, n, ok);
      if !ok {
        return;
      }
      cur, n := cur + PAGE_SIZE, n + 1;
    }
    AllVisited(mem0, t, p0, k.m.mem, t', k.pages.pool, image, r, done, n);
    ok := true;
  }

  /** The first `n` pages of the region are mapped, besides all regions before. */
  ghost predicate VisitedUpTo(mem0: Mem, t0: Tree, p0: Pool, mem: Mem, t: Tree, p: Pool, image: Image, r: MemRegion,
                              done: seq<MemRegion>, n: nat)
  {
    && n <= NumPages(r.size) && (n > 0 ==> r.base % PAGE_SIZE == 0)
    && Progress(mem0, t0, p0, mem, t, p, PagePaths(KERNEL_BASE + r.base, n))
    && AllMapped(mem, t0.root, image, done) && RegionMapped(mem, t0.root, image, r, r.base + n * PAGE_SIZE)
  }

  lemma NoneVisited(mem: Mem, t: Tree, p: Pool, image: Image, r: MemRegion, done: seq<MemRegion>)
    requires TreeOk(mem, t) && TreeSafe(t, p) && Unrestricted(mem, t) && p.used <= p.managed
             && AllMapped(mem, t.root, image, done)
    ensures VisitedUpTo(mem, t, p, mem, t, p, image, r, done, 0)
  {
    hide TreeOk, TreeSafe, Unrestricted, Progress, LinearAt, AllMapped;
    ProgressStart(mem, t, p);
  }

  lemma VisitFacts(mem0: Mem, t0: Tree, p0: Pool, mem: Mem, t: Tree, p: Pool, image: Image, r: MemRegion,
                   done: seq<MemRegion>, n: nat, perms: Permissions)
    requires VisitedUpTo(mem0, t0, p0, mem, t, p, image, r, done, n)
    ensures TreeOk(mem, t) && TreeSafe(t, p) && t.root == t0.root && 0 < t.root < |mem|
    ensures PathPermits(mem, t.root, 0, r.base + n * PAGE_SIZE + KERNEL_BASE, perms)
  {
    hide TreeOk, TreeSafe, Progress, AllMapped, RegionMapped, PagePaths, PathPermits, Prefixes, Paths, Missing,
         NumPages;
    ProgressFacts(mem0, t0, p0, mem, t, p, PagePaths(KERNEL_BASE + r.base, n), r.base + n * PAGE_SIZE + KERNEL_BASE,
                  perms);
  }

  /** After the next page: mapped as well, or refused for its alignment or for lack of pages. */
  lemma PageVisited(mem0: Mem, t0: Tree, p0: Pool, mem: Mem, t: Tree, p: Pool, mem': Mem, t': Tree, p': Pool,
                    image: Image, r: MemRegion, done: seq<MemRegion>, n: nat, ok: bool)
    requires VisitedUpTo(mem0, t0, p0, mem, t, p, image, r, done, n) && n * PAGE_SIZE < r.size
             && r.base + r.size <= MAP_LIMIT
    requires Aligned(done) && t.root < |mem|
    requires var pa := r.base + n * PAGE_SIZE;
             && (ok <==> pa % PAGE_SIZE == 0 && |p.Free()| >= Missing(mem, t.root, 0, KERNEL_BASE + pa))
             && (ok ==> Mapped(mem, t, p, mem', t', p', KERNEL_BASE + pa, pa, LinearPermissions(image, pa), NORMAL))
             && (!ok ==> NotMapped(mem, t, p, mem', t', p'))
    ensures ok ==> VisitedUpTo(mem0, t0, p0, mem', t', p', image, r, done, n + 1)
    ensures !ok ==>
              && Built(mem0, t0, p0, mem', t', p')
              && (r.base % PAGE_SIZE != 0 || |p0.Free()| < |RegionPaths(r) - Paths(t0)|)
  {
    hide Progress, AllMapped, Built, Mapped, NotMapped, Unrestricted, RegionMapped, PagePaths, Paths, Missing, NumPages,
         Aligned;
    var start, pa := KERNEL_BASE + r.base, r.base + n * PAGE_SIZE;
    PageNumber(r.size, n);
    Visited(r, n);
    assert t.root == t0.root by { ProgressRoot(mem0, t0, p0, mem, t, p, PagePaths(start, n)); }
    if ok {
      PagesNext(mem0, t0, p0, mem, t, p, start, n, mem', t', p', pa, LinearPermissions(image, pa), NORMAL);
      ProgressFree(mem0, t0, p0, mem, t, p, PagePaths(start, n));
      LinearStep(mem, t, p, mem', t', p', image, r, pa, done);
    } else {
      ProgressEnds(mem0, t0, p0, mem, t, p, PagePaths(start, n), mem', t', p');
      if r.base % PAGE_SIZE == 0 {
        PagesStuck(mem0, t0, p0, mem, t, p, start, n, NumPages(r.size));
      }
    }
  }

  lemma ProgressRoot(mem0: Mem, t0: Tree, p0: Pool, mem: Mem, t: Tree, p: Pool, done: set<seq<nat>>)
    requires Progress(mem0, t0, p0, mem, t, p, done)
    ensures t.root == t0.root
  {
    hide TreeOk, TreeSafe, Unrestricted;
  }

  lemma AllVisited(mem0: Mem, t0: Tree, p0: Pool, mem: Mem, t: Tree, p: Pool, image: Image, r: MemRegion,
                   done: seq<MemRegion>, n: nat)
    requires VisitedUpTo(mem0, t0, p0, mem, t, p, image, r, done, n) && n * PAGE_SIZE >= r.size
    ensures Progress(mem0, t0, p0, mem, t, p, RegionPaths(r)) && Built(mem0, t0, p0, mem, t, p)
    ensures |p0.Free()| >= |RegionPaths(r) - Paths(t0)| && (r.size > 0 ==> r.base % PAGE_SIZE == 0)
    ensures AllMapped(mem, t0.root, image, done) && RegionMapped(mem, t0.root, image, r, MAP_LIMIT)
  {
    hide Progress, AllMapped, Built, LinearAt, PagePaths, Paths, NumPages;
    PageNumber(r.size, n);
    PageNumber(r.size, 0);
    ProgressBuilt(mem0, t0, p0, mem, t, p, RegionPaths(r));
  }

  lemma Visited(r: MemRegion, n: nat)
    requires n < NumPages(r.size)
    ensures r.HasPage(r.base + n * PAGE_SIZE)
  {
  }

  /** The tree that consists of a cleared root. */
  function FreshTree(root: nat): Tree {
    Tree(root, map[root := []])
  }

  lemma FreshTreeOk(mem: Mem, root: nat, p: Pool)
    requires 0 < root < |mem| && mem[root] == ZeroFrame() && root !in p.Free() && root !in p.bitmaps
    ensures TreeOk(mem, FreshTree(root)) && TreeSafe(FreshTree(root), p) && Unrestricted(mem, FreshTree(root))
  {
    ZeroInvalid();
    assert FreshTree(root).Tables() == {root};
  }

  /** setup_kernel_map: clears the root, then maps every region. It succeeds exactly when there are regions, all
    aligned, and as many pages are free as the map needs tables. */
  method SetupKernelMap(k: Mapper, regions: seq<MemRegion>, root: nat, image: Image, ghost rf: nat)
    returns (ok: bool, ghost t: Tree)
    requires k.Valid() && 0 < rf < |k.m.mem| && root == PageVa(k.m.kernelBase, rf)
    requires rf !in k.pages.pool.Free() && rf !in k.pages.pool.bitmaps
    requires forall i: nat :: i < |regions| ==> regions[i].base + regions[i].size <= MAP_LIMIT
    modifies k.pages`regions, k.pages`pool, k.m`mem
    ensures k.Valid()
    ensures ok <==> |regions| > 0 && Aligned(regions) && |old(k.pages.pool).Free()| >= |MapPaths(regions)|
    ensures !ok ==> |regions| == 0 || !Aligned(regions) || k.pages.pool.Free() == {}
    ensures ok ==> Progress(old(k.m.mem)[rf := ZeroFrame()], FreshTree(rf), old(k.pages.pool), k.m.mem, t, k.pages.pool,
                            MapPaths(regions))
    ensures ok ==> AllMapped(k.m.mem, rf, image, regions)
  {
    hide TreeOk, TreeSafe, Built, Inv, AllMapped, RegionMapped, Unrestricted, Progress, Paths, MapPaths, RegionPaths,
         Aligned, MappedUpTo;
    t := FreshTree(rf);
    if |regions| == 0 {
      return false, t;
    }
    k.pages.ZeroPage(root, rf);
    ghost var mem0, p0 := k.m.mem, k.pages.pool;
    AllFacts(mem0, k.m.kernelBase, k.pages.chunks, k.pages.regions, p0);
    NoneMapped(mem0, p0, rf, image, regions);
    var i := 0;
    while i < |regions|
      invariant i <= |regions| && k.Valid() && MappedUpTo(mem0, p0, rf, k.m.mem, t, k.pages.pool, image, regions, i)
    {
      ghost var mem1, t1, p1 := k.m.mem, t, k.pages.pool;
      MappedFacts(mem0, p0, rf, mem1, t1, p1, image, regions, i);
      ok, t := MapMemRegion(k, regions[i], root, image, t1, regions[..i]);
      RegionTried(mem0, p0, rf, mem1, t1, p1, k.m.mem, t, k.pages.pool, image, regions, i, ok);
      if !ok {
        return;
      }
      i := i + 1;
    }
    AllDone(mem0, p0, rf, k.m.mem, t, k.pages.pool, image, regions);
    ok := true;
  }

  /** The first `i` regions are mapped, all aligned. */
  ghost predicate MappedUpTo(mem0: Mem, p0: Pool, rf: nat, mem: Mem, t: Tree, p: Pool, image: Image,
                             regions: seq<MemRegion>, i: nat)
  {
    && i <= |regions| && Progress(mem0, FreshTree(rf), p0, mem, t, p, MapPaths(regions[..i]))
    && Aligned(regions[..i]) && AllMapped(mem, rf, image, regions[..i])
  }

  lemma NoneMapped(mem: Mem, p: Pool, rf: nat, image: Image, regions: seq<MemRegion>)
    requires 0 < rf < |mem| && mem[rf] == ZeroFrame() && rf !in p.Free() && rf !in p.bitmaps && p.used <= p.managed
    ensures MappedUpTo(mem, p, rf, mem, FreshTree(rf), p, image, regions, 0)
  {
    hide TreeOk, TreeSafe, Unrestricted, Progress, LinearAt;
    FreshTreeOk(mem, rf, p);
    ProgressStart(mem, FreshTree(rf), p);
  }

  lemma MappedFacts(mem0: Mem, p0: Pool, rf: nat, mem: Mem, t: Tree, p: Pool, image: Image, regions: seq<MemRegion>,
                    i: nat)
    requires MappedUpTo(mem0, p0, rf, mem, t, p, image, regions, i)
    ensures TreeOk(mem, t) && TreeSafe(t, p) && Unrestricted(mem, t) && t.root == rf && t.root < |mem|
    ensures i <= |regions| && Aligned(regions[..i]) && AllMapped(mem, rf, image, regions[..i])
  {
    hide TreeOk, TreeSafe, Unrestricted, Progress, AllMapped, Aligned, MapPaths;
    ProgressFacts(mem0, FreshTree(rf), p0, mem, t, p, MapPaths(regions[..i]), 0, LinearPermissions(image, 0));
    ProgressFree(mem0, FreshTree(rf), p0, mem, t, p, MapPaths(regions[..i]));
  }

  /** After the next region: mapped as well, or refused for its alignment or for lack of pages. */
  lemma RegionTried(mem0: Mem, p0: Pool, rf: nat, mem: Mem, t: Tree, p: Pool, mem': Mem, t': Tree, p': Pool,
                    image: Image, regions: seq<MemRegion>, i: nat, ok: bool)
    requires MappedUpTo(mem0, p0, rf, mem, t, p, image, regions, i) && i < |regions|
    requires ok <==>
             && (regions[i].size > 0 ==> regions[i].base % PAGE_SIZE == 0)
             && |p.Free()| >= |RegionPaths(regions[i]) - Paths(t)|
    requires ok ==> Progress(mem, t, p, mem', t', p', RegionPaths(regions[i]))
    requires ok ==> AllMapped(mem', rf, image, regions[..i]) && RegionMapped(mem', rf, image, regions[i], MAP_LIMIT)
    ensures ok ==> MappedUpTo(mem0, p0, rf, mem', t', p', image, regions, i + 1)
    ensures !ok ==> !Aligned(regions) || |p0.Free()| < |MapPaths(regions)|
    ensures regions[i].size > 0 && regions[i].base % PAGE_SIZE != 0 ==> !Aligned(regions)
  {
    hide Progress, AllMapped, RegionMapped, MapPaths, RegionPaths, Paths, Aligned;
    MapPathsNext(regions, i);
    RegionMisaligned(regions, i);
    FreshPaths(rf, regions);
    if ok {
      ProgressTrans(mem0, FreshTree(rf), p0, mem, t, p, MapPaths(regions[..i]), mem', t', p', RegionPaths(regions[i]));
      OneMoreRegion(mem', rf, image, regions, i);
    } else if |p.Free()| < |RegionPaths(regions[i]) - Paths(t)| {
      ProgressShort(mem0, FreshTree(rf), p0, mem, t, p, MapPaths(regions[..i]), RegionPaths(regions[i]),
                    MapPaths(regions));
    }
  }

  lemma AllDone(mem0: Mem, p0: Pool, rf: nat, mem: Mem, t: Tree, p: Pool, image: Image, regions: seq<MemRegion>)
    requires MappedUpTo(mem0, p0, rf, mem, t, p, image, regions, |regions|)
    ensures Progress(mem0, FreshTree(rf), p0, mem, t, p, MapPaths(regions)) && |p0.Free()| >= |MapPaths(regions)|
    ensures Aligned(regions) && AllMapped(mem, rf, image, regions)
  {
    hide Progress, AllMapped, MapPaths, Paths, Aligned;
    assert regions[..|regions|] == regions;
    FreshPaths(rf, regions);
    ProgressBuilt(mem0, FreshTree(rf), p0, mem, t, p, MapPaths(regions));
  }

  lemma RegionMisaligned(regions: seq<MemRegion>, i: nat)
    requires i < |regions|
    ensures regions[i].size > 0 && regions[i].base % PAGE_SIZE != 0 ==> !Aligned(regions)
  {
  }

  /** The cleared root lies on no path that is still needed. */
  lemma FreshPaths(rf: nat, regions: seq<MemRegion>)
    ensures MapPaths(regions) - Paths(FreshTree(rf)) == MapPaths(regions)
    ensures Paths(FreshTree(rf)) == {[]}
  {
    hide MapPaths;
    NoEmptyMapPath(regions);
    PathKnown(FreshTree(rf), rf);
    assert forall q :: q in Paths(FreshTree(rf)) ==> q == FreshTree(rf).path[rf];
  }

  lemma OneMoreRegion(mem: Mem, root: nat, image: Image, regions: seq<MemRegion>, i: nat)
    requires i < |regions| && Aligned(regions[..i]) && AllMapped(mem, root, image, regions[..i])
    requires RegionMapped(mem, root, image, regions[i], MAP_LIMIT)
    requires regions[i].size > 0 ==> regions[i].base % PAGE_SIZE == 0
    ensures Aligned(regions[..i + 1]) && AllMapped(mem, root, image, regions[..i + 1])
  {
    hide RegionMapped;
    var done := regions[..i + 1];
    assert done == regions[..i] + [regions[i]];
  }

  // ---- the map covers its own tables

  /** Every table of the map, its root included, can be reached and written through the map. */
  ghost predicate SelfMapped(mem: Mem, t: Tree, image: Image) {
    forall f :: f in t.path ==> LinearAt(mem, t.root, image, f * PAGE_SIZE)
  }

  /** Frame `f` is a whole page of one of the regions. */
  ghost predicate InRegions(regions: seq<MemRegion>, f: nat) {
    exists i: nat :: i < |regions| && regions[i].base <= f * PAGE_SIZE
        && (f + 1) * PAGE_SIZE <= regions[i].base + regions[i].size
  }

  lemma InRegionsMapped(mem: Mem, root: nat, image: Image, regions: seq<MemRegion>, f: nat)
    requires Aligned(regions) && AllMapped(mem, root, image, regions) && InRegions(regions, f)
             && f * PAGE_SIZE < MAP_LIMIT
    ensures LinearAt(mem, root, image, f * PAGE_SIZE)
  {
    var i: nat :| i < |regions| && regions[i].base <= f * PAGE_SIZE
      && (f + 1) * PAGE_SIZE <= regions[i].base + regions[i].size;
    hide LinearAt;
    assert regions[i].HasPage(f * PAGE_SIZE);
    assert RegionMapped(mem, root, image, regions[i], MAP_LIMIT);
  }

  /** Tables come from pages of the regions, and those are all mapped. */
  lemma MapIsSelfMapped(mem0: Mem, p0: Pool, mem: Mem, t: Tree, p: Pool, image: Image, regions: seq<MemRegion>, rf: nat)
    requires Built(mem0, FreshTree(rf), p0, mem, t, p)
    requires Aligned(regions) && AllMapped(mem, rf, image, regions) && |mem| <= MAX_FRAMES
    requires InRegions(regions, rf) && forall f :: f in p0.managed ==> InRegions(regions, f)
    ensures SelfMapped(mem, t, image)
  {
    hide TreeSafe, Unrestricted, LinearAt, AllMapped, LinkOk, Linked;
    forall f | f in t.path
      ensures LinearAt(mem, t.root, image, f * PAGE_SIZE)
    {
      assert f in t.Tables();
      assert f == rf || f in p0.Free() by {
        assert FreshTree(rf).Tables() == {rf};
      }
      InRegionsMapped(mem, rf, image, regions, f);
    }
  }

  /** A later mapping elsewhere, its new tables taken from mapped pages, keeps it so. */
  lemma StaysSelfMapped(mem: Mem, t: Tree, p: Pool, mem': Mem, t': Tree, p': Pool, image: Image,
                        va: nat, pa: nat, perms: Permissions, memType: MemType)
    requires Mapped(mem, t, p, mem', t', p', va, pa, perms, memType) && SelfMapped(mem, t, image)
    requires forall f :: f in p.Free() ==> LinearAt(mem, t.root, image, f * PAGE_SIZE)
    requires forall f :: f in t.path || f in p.Free() ==> !SamePage(va, KERNEL_BASE + f * PAGE_SIZE)
    ensures SelfMapped(mem', t', image)
    ensures forall f :: f in p.Free() ==> LinearAt(mem', t.root, image, f * PAGE_SIZE)
  {
    hide LinearAt, SamePage, Mapped;
    MappedTables(mem, t, p, mem', t', p', va, pa, perms, memType);
    forall f | f in t.path || f in p.Free()
      ensures LinearAt(mem', t.root, image, f * PAGE_SIZE)
    {
      OtherMapKeepsLinear(mem, t, p, mem', t', p', image, va, pa, perms, memType, f * PAGE_SIZE);
    }
  }

  /** These frames are mapped linearly. */
  ghost predicate LinearFrames(mem: Mem, root: nat, image: Image, frames: set<nat>) {
    forall f :: f in frames ==> LinearAt(mem, root, image, f * PAGE_SIZE)
  }

  /** The kernel can run on this map: its tables are used pages, and every page of the allocator, so every table
    and bitmap, can be reached and written at its linear address. */
  ghost predicate HighHalf(mem: Mem, t: Tree, p: Pool, image: Image) {
    && TreeOk(mem, t) && Unrestricted(mem, t)
    && t.Tables() <= p.used && t.Tables() !! p.bitmaps && p.bitmaps <= p.used <= p.managed
    && LinearFrames(mem, t.root, image, p.managed)
  }

  lemma HighHalfSelfMapped(mem: Mem, t: Tree, p: Pool, image: Image)
    requires HighHalf(mem, t, p, image)
    ensures SelfMapped(mem, t, image)
  {
    hide LinearAt, TreeOk, Unrestricted;
    assert forall f :: f in t.path ==> f in t.Tables();
  }

  /** Mappings off the allocator's linear pages can follow each other for ever. */
  lemma StaysHighHalf(mem: Mem, t: Tree, p: Pool, mem': Mem, t': Tree, p': Pool, image: Image,
                      va: nat, pa: nat, perms: Permissions, memType: MemType)
    requires HighHalf(mem, t, p, image) && Mapped(mem, t, p, mem', t', p', va, pa, perms, memType)
    requires forall f :: f in p.managed ==> !SamePage(va, KERNEL_BASE + f * PAGE_SIZE)
    ensures HighHalf(mem', t', p', image) && t'.root == t.root && p'.managed == p.managed
  {
    hide LinearAt, SamePage, Mapped, TreeOk, Unrestricted;
    MappedTables(mem, t, p, mem', t', p', va, pa, perms, memType);
    MappedBuilt(mem, t, p, mem', t', p', va, pa, perms, memType);
    StaysUnrestricted(mem, t, p, mem', t', p');
    BuiltPool(mem, t, p, mem', t', p');
    forall f | f in p.managed
      ensures LinearAt(mem', t.root, image, f * PAGE_SIZE)
    {
      OtherMapKeepsLinear(mem, t, p, mem', t', p', image, va, pa, perms, memType, f * PAGE_SIZE);
    }
  }

  lemma BuiltPool(mem: Mem, t: Tree, p: Pool, mem': Mem, t': Tree, p': Pool)
    requires Built(mem, t, p, mem', t', p') && t.Tables() <= p.used && p.bitmaps <= p.used <= p.managed
    ensures p'.managed == p.managed && p'.bitmaps == p.bitmaps <= p'.used <= p'.managed
    ensures t'.Tables() <= p'.used && t'.Tables() !! p'.bitmaps
  {
    hide TreeOk, Unrestricted;
  }

  lemma MappedTables(mem: Mem, t: Tree, p: Pool, mem': Mem, t': Tree, p': Pool, va: nat, pa: nat, perms: Permissions,
                     memType: MemType)
    requires Mapped(mem, t, p, mem', t', p', va, pa, perms, memType)
    ensures t'.root == t.root && forall f :: f in t'.path ==> f in t.path || f in p.Free()
  {
    hide TreeOk, TreeSafe, Unrestricted, Walk, Missing, SamePage;
    forall f | f in t'.path
      ensures f in t.path || f in p.Free()
    {
      assert f in t'.Tables();
    }
  }

  // ---- map_continuous

  lemma BlockApart(v: nat, i: nat, j: nat)
    requires v % PAGE_SIZE == 0 && i < 0x10_0000_0000 && j < 0x10_0000_0000 && i != j
    ensures !SamePage(v + i * PAGE_SIZE, v + j * PAGE_SIZE)
  {
    hide SamePage;
    SamePageIff(v + i * PAGE_SIZE, v + j * PAGE_SIZE);
    var q := v / PAGE_SIZE;
    assert (v + i * PAGE_SIZE) / PAGE_SIZE == q + i && (v + j * PAGE_SIZE) / PAGE_SIZE == q + j;
  }

  ghost predicate BlockMapped(mem: Mem, root: nat, v: nat, pBase: nat, n: nat, perms: Permissions, memType: MemType) {
    && root < |mem|
    && forall i: nat :: i < n ==>
                     Leads(Walk(mem, root, v + i * PAGE_SIZE), pBase + i * PAGE_SIZE, perms, memType)
  }

  lemma BlockStep(mem: Mem, t: Tree, p: Pool, mem': Mem, t': Tree, p': Pool, v: nat, pBase: nat, n: nat,
                  perms: Permissions, memType: MemType)
    requires Mapped(mem, t, p, mem', t', p', v + n * PAGE_SIZE, pBase + n * PAGE_SIZE, perms, memType)
    requires BlockMapped(mem, t.root, v, pBase, n, perms, memType) && v % PAGE_SIZE == 0 && n < 0x10_0000_0000
    ensures BlockMapped(mem', t.root, v, pBase, n + 1, perms, memType)
  {
    hide Leads, Walk, Built, SamePage;
    forall i: nat | i < n
      ensures Leads(Walk(mem', t.root, v + i * PAGE_SIZE), pBase + i * PAGE_SIZE, perms, memType)
    {
      BlockApart(v, n, i);
    }
  }

  /** map_continuous: refuses misaligned or empty blocks, rounds the size up to pages, and succeeds exactly when
    enough pages are free for the tables that are missing. */
  method MapContinuous(k: Mapper, root: nat, pBase: nat, vBase: nat, size: nat, perms: Permissions, memType: MemType,
                       ghost t: Tree)
    returns (ok: bool, ghost t': Tree)
    requires k.Valid() && TreeOk(k.m.mem, t) && TreeSafe(t, k.pages.pool) && root == PageVa(k.m.kernelBase, t.root)
             && Unrestricted(k.m.mem, t)
    requires size <= MAP_LIMIT && pBase + size + PAGE_SIZE <= ADDRESS_SPACE && vBase + size + PAGE_SIZE <= ADDRESS_SPACE
    modifies k.pages`regions, k.pages`pool, k.m`mem
    ensures k.Valid() && Built(old(k.m.mem), t, old(k.pages.pool), k.m.mem, t', k.pages.pool)
    ensures ok <==>
            && pBase % PAGE_SIZE == 0 && vBase % PAGE_SIZE == 0 && size > 0
            && |old(k.pages.pool).Free()| >= |PagePaths(vBase, NumPages(size)) - Paths(t)|
    ensures pBase % PAGE_SIZE != 0 || vBase % PAGE_SIZE != 0 || size == 0 ==> !ok && k.m.mem == old(k.m.mem)
    ensures !ok ==> pBase % PAGE_SIZE != 0 || vBase % PAGE_SIZE != 0 || size == 0 || k.pages.pool.Free() == {}
    ensures ok ==> BlockMapped(k.m.mem, t.root, vBase, pBase, NumPages(size), perms, memType)
  {
    hide TreeOk, TreeSafe, Built, Mapped, NotMapped, BlockMapped, Inv, PathPermits, Missing, Unrestricted, Progress,
         Paths, PagePaths;
    NoPages(vBase);
    ghost var mem0, p0, pages := k.m.mem, k.pages.pool, NumPages(size);
    t' := t;
    AllFacts(mem0, k.m.kernelBase, k.pages.chunks, k.pages.regions, p0);
    ProgressStart(mem0, t, p0);
    ProgressBuilt(mem0, t, p0, mem0, t, p0, {});
    if pBase % PAGE_SIZE != 0 || vBase % PAGE_SIZE != 0 || size == 0 {
      return false, t;
    }
    var rounded := if size % PAGE_SIZE != 0 then (size + PAGE_SIZE - 1) / PAGE_SIZE * PAGE_SIZE else size;
    assert rounded == pages * PAGE_SIZE && pages <= 0x10_0000_0000;
    hide LeafInNumbers, NumPages;
    var pStart, vStart, end := pBase, vBase, pBase + rounded;
    ghost var n := 0;
    EmptyBlock(mem0, t, vBase, pBase, perms, memType);
    while pStart < end
      invariant n <= pages && pStart == pBase + n * PAGE_SIZE && vStart == vBase + n * PAGE_SIZE && k.Valid()
      invariant Progress(mem0, t, p0, k.m.mem, t', k.pages.pool, PagePaths(vBase, n))
      invariant BlockMapped(k.m.mem, t.root, vBase, pBase, n, perms, memType)
      decreases pages - n
    {
      ghost var mem1, t1, p1 := k.m.mem, t', k.pages.pool;
      ProgressFacts(mem0, t, p0, mem1, t1, p1, PagePaths(vBase, n), vStart, perms);
      ok, t' := k.MapPage(root, vStart, pStart, perms, memType, t1);
      if !ok {
        ProgressEnds(mem0, t, p0, mem1, t1, p1, PagePaths(vBase, n), k.m.mem, t', k.pages.pool);
        PagesStuck(mem0, t, p0, mem1, t1, p1, vBase, n, pages);
        return;
      }
      PagesNext(mem0, t, p0, mem1, t1, p1, vBase, n, k.m.mem, t', k.pages.pool, pStart, perms, memType);
      BlockStep(mem1, t1, p1, k.m.mem, t', k.pages.pool, vBase, pBase, n, perms, memType);
      pStart, vStart, n := pStart + PAGE_SIZE, vStart + PAGE_SIZE, n + 1;
    }
    ProgressBuilt(mem0, t, p0, k.m.mem, t', k.pages.pool, PagePaths(vBase, pages));
    ok := true;
  }

  lemma EmptyBlock(mem: Mem, t: Tree, v: nat, pBase: nat, perms: Permissions, memType: MemType)
    requires TreeOk(mem, t)
    ensures BlockMapped(mem, t.root, v, pBase, 0, perms, memType)
  {
  }
}
