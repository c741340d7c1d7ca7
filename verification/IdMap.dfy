/** setup_kernel_id_map: the identity map, built in a pool of its own inside the kernel image. */
module IdMap {
  import opened Memory
  import opened FirstFit
  import opened PhysicalPages
  import opened PageAllocation
  import opened Descriptors
  import opened TranslationTree
  import opened PageTables
  import opened TableGrowth
  import opened KernelMap

  const ID_MAP_NUM_PAGES: nat := 6

  const IMAGE_PERMISSIONS: Permissions := Permissions(true, true, true, false)
  const DEVICE_PERMISSIONS: Permissions := Permissions(true, true, false, false)

  function ImagePages(image: Image): nat {
    if image.start < image.end then NumPages(image.end - image.start) else 0
  }

  /** Paths of the tables, below the root, that the identity map needs. */
  function IdMapPaths(image: Image, serial: nat): set<seq<nat>> {
    PagePaths(image.start, ImagePages(image)) + Prefixes(serial)
  }

  // ---- the pool

  /** With no chunk registered, nothing is in the way of a region. */
  lemma NoRegions(mem: Mem, base: nat, chunks: seq<Chunk>, rs: seq<Region>, p: Pool)
    requires Inv(mem, base, chunks, rs, p) && p == EmptyPool()
    ensures forall k: nat :: k < |rs| ==> rs[k].Absent?
    ensures |rs| == 10
  {
    forall k: nat | k < |rs|
      ensures rs[k].Absent?
    {
      KnownChunk(mem, base, chunks, rs, p, k);
      assert p.spans[k] == SpanOf(rs[k]);
    }
  }

  /** The pool: one page of bitmap, then six pages. */
  lemma PoolUsable(b: nat, image: Image)
    requires b > 0
    ensures RegionUsable(b * PAGE_SIZE, 7 * PAGE_SIZE, false, image)
    ensures FirstFrame(b * PAGE_SIZE) == b && WholePages(b * PAGE_SIZE, 7 * PAGE_SIZE) == 7 && BitmapPages(7) == 1
  {
  }

  lemma FreshPool(rs: seq<Region>, mem: Mem, rs': seq<Region>, p': Pool, mem': Mem, k: nat, b: nat)
    requires RegionAdded(rs, EmptyPool(), mem, rs', p', mem', k, b * PAGE_SIZE, 7 * PAGE_SIZE) && b > 0
    requires forall j: nat :: j < |rs| ==> rs[j].Absent?
    ensures rs' == rs[k := NewRegion(b, 7)] && p'.managed == Run(b, 7) && p'.used == p'.bitmaps == Run(b, 1)
    ensures WithoutRegion(p', k, rs'[k]) == EmptyPool()
    ensures SameOutside(mem, mem', Run(b, 1))
  {
    PoolUsable(b, Image(0, 0));
  }

  /** The first page handed out is the one after the bitmap. */
  lemma RootIsNext(rs: seq<Region>, p: Pool, mem: Mem, rs': seq<Region>, p': Pool, mem': Mem, k: nat, b: nat, pa: nat)
    requires k < |rs| && rs[k] == NewRegion(b, 7) && forall j: nat :: j < |rs| && j != k ==> rs[j].Absent?
    requires PagesTaken(rs, p, mem, rs', p', mem', 1, pa)
    ensures pa == (b + 1) * PAGE_SIZE
  {
    hide RunMarked;
    var k': nat, s: nat :|
      && FirstFitAt(rs, 1, k', s)
      && pa == (rs[k'].first + s) * PAGE_SIZE
      && RunMarked(rs, p, mem, rs', p', mem', k', s, 1, true);
    PoolUsable(1, Image(0, 0));
    assert rs[k].flags[0] && !rs[k].flags[1];
    assert FreeRun(rs[k].flags, 1, 1);
  }

  lemma RootFits(rs: seq<Region>, k: nat, b: nat)
    requires k < |rs| && rs[k] == NewRegion(b, 7)
    ensures !NoFit(rs, 1)
  {
    PoolUsable(1, Image(0, 0));
    assert FreeRun(rs[k].flags, 1, 1);
  }

  // ---- the mappings

  lemma NoneEmptyHere(va: nat)
    ensures [] !in Prefixes(va)
  {
    hide Index;
  }

  /** With the root taken, five pages are left, and no path but the root's is there. */
  ghost predicate PoolReady(mem: Mem, p: Pool, b: nat) {
    && b + 1 < |mem| && TreeOk(mem, FreshTree(b + 1)) && TreeSafe(FreshTree(b + 1), p)
    && Unrestricted(mem, FreshTree(b + 1))
    && p.used <= p.managed && |p.Free()| == ID_MAP_NUM_PAGES - 1 && Paths(FreshTree(b + 1)) == {[]}
  }

  lemma PoolIsReady(mem: Mem, p: Pool, b: nat)
    requires 0 < b && b + 1 < |mem| && mem[b + 1] == ZeroFrame()
    requires p.managed == Run(b, 7) && p.used == Run(b, 1) + Run(b + 1, 1) && p.bitmaps == Run(b, 1)
    ensures PoolReady(mem, p, b)
  {
    hide TreeOk, TreeSafe, Unrestricted;
    FreshTreeOk(mem, b + 1, p);
    assert p.Free() == Run(b + 2, 5);
    RunSize(b + 2, 5);
    FreshPaths(b + 1, []);
  }

  /** Only the pool's own seven frames have been written, and they make up tables and bitmap. */
  lemma BuiltInPool(mem: Mem, t: Tree, p: Pool, mem': Mem, t': Tree, p': Pool, b: nat)
    requires Built(mem, t, p, mem', t', p') && p.managed == Run(b, 7) && p.bitmaps == Run(b, 1)
             && t.Tables() <= Run(b + 1, 6)
    requires p.bitmaps <= p.used
    ensures t'.Tables() <= Run(b + 1, 6) && SameOutside(mem, mem', Run(b, 7))
    ensures p'.managed == p.managed && p'.bitmaps == p.bitmaps && p'.spans == p.spans
  {
    hide TreeOk, TreeSafe, Unrestricted, Extends;
    forall f | f in t'.Tables()
      ensures f in Run(b + 1, 6)
    {
      assert f in t.Tables() || f in p.Free();
    }
  }

  /** The identity map of the image, and of the serial page unless that is one of its pages. */
  ghost predicate IdMapped(mem: Mem, root: nat, image: Image, serial: nat) {
    && root < |mem|
    && Leads(Walk(mem, root, serial), serial, DEVICE_PERMISSIONS, DEVICE)
    && forall i: nat :: i < ImagePages(image) && !SamePage(serial, image.start + i * PAGE_SIZE) ==>
         Leads(Walk(mem, root, image.start + i * PAGE_SIZE), image.start + i * PAGE_SIZE, IMAGE_PERMISSIONS, NORMAL)
  }

  lemma SerialMapped(mem: Mem, t: Tree, p: Pool, mem': Mem, t': Tree, p': Pool, image: Image, serial: nat)
    requires Mapped(mem, t, p, mem', t', p', serial, serial, DEVICE_PERMISSIONS, DEVICE)
    requires BlockMapped(mem, t.root, image.start, image.start, ImagePages(image), IMAGE_PERMISSIONS, NORMAL)
    ensures IdMapped(mem', t.root, image, serial)
  {
    hide Built, Leads, SamePage, WalkFrom, ImagePages;
  }

  /** The first `n` pages of the image are mapped. */
  ghost predicate ImageMapped(mem0: Mem, t0: Tree, p0: Pool, mem: Mem, t: Tree, p: Pool, start: nat, n: nat) {
    && Progress(mem0, t0, p0, mem, t, p, PagePaths(start, n))
    && BlockMapped(mem, t0.root, start, start, n, IMAGE_PERMISSIONS, NORMAL)
  }

  lemma ImageStart(mem: Mem, p: Pool, b: nat, start: nat)
    requires PoolReady(mem, p, b)
    ensures ImageMapped(mem, FreshTree(b + 1), p, mem, FreshTree(b + 1), p, start, 0)
  {
    hide TreeOk, TreeSafe, Unrestricted, Progress, BlockMapped, Paths;
    ProgressStart(mem, FreshTree(b + 1), p);
    EmptyBlock(mem, FreshTree(b + 1), start, start, IMAGE_PERMISSIONS, NORMAL);
  }

  lemma ImageFacts(mem0: Mem, t0: Tree, p0: Pool, mem: Mem, t: Tree, p: Pool, start: nat, n: nat, va: nat,
                   perms: Permissions)
    requires ImageMapped(mem0, t0, p0, mem, t, p, start, n)
    ensures TreeOk(mem, t) && TreeSafe(t, p) && 0 < t.root < |mem| && t.root == t0.root && |mem| == |mem0|
    ensures PathPermits(mem, t.root, 0, va, perms)
  {
    hide TreeOk, TreeSafe, Built, Unrestricted, BlockMapped, PagePaths, Prefixes, Paths, Missing, PathPermits, Grew;
    ProgressFacts(mem0, t0, p0, mem, t, p, PagePaths(start, n), va, perms);
  }

  lemma ImageStep(mem0: Mem, t0: Tree, p0: Pool, mem: Mem, t: Tree, p: Pool, mem': Mem, t': Tree, p': Pool, start: nat,
                  n: nat)
    requires ImageMapped(mem0, t0, p0, mem, t, p, start, n) && start % PAGE_SIZE == 0 && n < MAX_FRAMES
             && t.root == t0.root
    requires Mapped(mem, t, p, mem', t', p', start + n * PAGE_SIZE, start + n * PAGE_SIZE, IMAGE_PERMISSIONS, NORMAL)
    ensures ImageMapped(mem0, t0, p0, mem', t', p', start, n + 1)
  {
    hide Progress, Mapped, BlockMapped, PagePaths;
    PagesNext(mem0, t0, p0, mem, t, p, start, n, mem', t', p', start + n * PAGE_SIZE, IMAGE_PERMISSIONS, NORMAL);
    BlockStep(mem, t, p, mem', t', p', start, start, n, IMAGE_PERMISSIONS, NORMAL);
  }

  /** The loop of setup_kernel_id_map over the image. */
  method MapImage(k: Mapper, root: nat, image: Image, ghost b: nat) returns (ok: bool, ghost t: Tree)
    requires k.Valid() && PoolReady(k.m.mem, k.pages.pool, b) && root == PageVa(k.m.kernelBase, b + 1)
    requires image.end <= |k.m.mem| * PAGE_SIZE
    modifies k.pages`regions, k.pages`pool, k.m`mem
    ensures k.Valid()
    ensures ok ==> ImageMapped(old(k.m.mem), FreshTree(b + 1), old(k.pages.pool), k.m.mem, t, k.pages.pool, image.start,
                               ImagePages(image))
    ensures if ok then image.start < image.end ==> image.start % PAGE_SIZE == 0
            else
              && image.start < image.end
              && (image.start % PAGE_SIZE != 0 || |PagePaths(image.start, ImagePages(image))| > 5)
  {
    hide LeafInNumbers, TreeOk, TreeSafe, Mapped, NotMapped, Inv, PathPermits, Missing, PoolReady, ImageMapped,
         ImagePages, PagePaths;
    ghost var mem0, p0, t0, start := k.m.mem, k.pages.pool, FreshTree(b + 1), image.start;
    t := t0;
    ImageStart(mem0, p0, b, start);
    var cur := image.start;
    ghost var n := 0;
    PageCount(image, 0);
    while cur < image.end
      invariant cur == start + n * PAGE_SIZE && n <= ImagePages(image) && |k.m.mem| == |mem0|
      invariant cur > start ==> start % PAGE_SIZE == 0
      invariant k.Valid() && ImageMapped(mem0, t0, p0, k.m.mem, t, k.pages.pool, start, n)
    {
      ghost var mem1, t1, p1 := k.m.mem, t, k.pages.pool;
      ImageFacts(mem0, t0, p0, mem1, t1, p1, start, n, cur, IMAGE_PERMISSIONS);
      PageCount(image, n);
      ok, t := k.MapPage(root, cur, cur, IMAGE_PERMISSIONS, NORMAL, t1);
      if !ok {
        if start % PAGE_SIZE == 0 {
          ImageStuck(mem0, p0, b, mem1, t1, p1, start, n, ImagePages(image));
        }
        return;
      }
      ImageStep(mem0, t0, p0, mem1, t1, p1, k.m.mem, t, k.pages.pool, start, n);
      ImageFacts(mem0, t0, p0, k.m.mem, t, k.pages.pool, start, n + 1, cur, IMAGE_PERMISSIONS);
      cur, n := cur + PAGE_SIZE, n + 1;
    }
    PageCount(image, n);
    ok := true;
  }

  /** Refused on the way: more than five tables are needed. */
  lemma ImageStuck(mem0: Mem, p0: Pool, b: nat, mem: Mem, t: Tree, p: Pool, start: nat, n: nat, pages: nat)
    requires PoolReady(mem0, p0, b) && ImageMapped(mem0, FreshTree(b + 1), p0, mem, t, p, start, n) && n < pages
    requires t.root < |mem| && |p.Free()| < Missing(mem, t.root, 0, start + n * PAGE_SIZE)
    ensures |PagePaths(start, pages)| > 5
  {
    hide TreeOk, TreeSafe, Unrestricted, Progress, BlockMapped, Missing, PagePaths, Paths;
    PagesStuck(mem0, FreshTree(b + 1), p0, mem, t, p, start, n, pages);
    NoEmptyPath(start, pages);
    assert PagePaths(start, pages) - {[]} == PagePaths(start, pages);
  }

  /** After the serial page, too: mapped, or refused because more than five tables are needed. */
  lemma SerialTried(mem0: Mem, p0: Pool, b: nat, mem1: Mem, t1: Tree, p1: Pool, mem: Mem, t: Tree, p: Pool,
                    image: Image, serial: nat, ok: bool)
    requires PoolReady(mem0, p0, b)
             && ImageMapped(mem0, FreshTree(b + 1), p0, mem1, t1, p1, image.start, ImagePages(image))
    requires t1.root < |mem1| && (ok <==> serial % PAGE_SIZE == 0 && |p1.Free()| >= Missing(mem1, t1.root, 0, serial))
    requires ok ==> Mapped(mem1, t1, p1, mem, t, p, serial, serial, DEVICE_PERMISSIONS, DEVICE)
    ensures ok <==> serial % PAGE_SIZE == 0 && |IdMapPaths(image, serial)| <= 5
    ensures ok ==> Progress(mem0, FreshTree(b + 1), p0, mem, t, p, IdMapPaths(image, serial))
  {
    hide TreeOk, TreeSafe, Unrestricted, Progress, BlockMapped, Missing, PagePaths, Paths, Prefixes, ImagePages, Mapped;
    var done, all := PagePaths(image.start, ImagePages(image)), IdMapPaths(image, serial);
    NoneEmptyPath(image, serial);
    assert all - {[]} == all;
    if ok {
      ProgressNext(mem0, FreshTree(b + 1), p0, mem1, t1, p1, done, mem, t, p, serial, serial, DEVICE_PERMISSIONS,
                   DEVICE);
      ProgressBuilt(mem0, FreshTree(b + 1), p0, mem, t, p, all);
    } else if serial % PAGE_SIZE == 0 {
      ProgressStuck(mem0, FreshTree(b + 1), p0, mem1, t1, p1, done, serial, all);
    }
  }

  lemma PageCount(image: Image, n: nat)
    ensures image.start + n * PAGE_SIZE < image.end <==> n < ImagePages(image)
    ensures image.end <= MAX_FRAMES * PAGE_SIZE ==> ImagePages(image) <= MAX_FRAMES
  {
  }

  lemma SameSize(mem: Mem, t: Tree, p: Pool, mem': Mem, t': Tree, p': Pool)
    requires Built(mem, t, p, mem', t', p')
    ensures |mem'| == |mem|
  {
  }

  /** The pool's region is gone again; its frames hold the map's tables, and no other memory was written. */
  ghost predicate IdMapDone(mem0: Mem, mem: Mem, t: Tree, b: nat, image: Image, serial: nat) {
    && TreeOk(mem, t) && Unrestricted(mem, t) && t.root == b + 1 && t.Tables() <= Run(b + 1, ID_MAP_NUM_PAGES)
    && |t.Tables()| == 1 + |IdMapPaths(image, serial)|
    && IdMapped(mem, t.root, image, serial)
    && SameOutside(mem0, mem, Run(b, ID_MAP_NUM_PAGES + 1))
  }

  /** Registers the pool and takes the root's page from it. */
  method OpenPool(k: Mapper, b: nat, image: Image) returns (root: nat, ghost slot: nat)
    requires k.Valid() && k.m.kernelBase == 0 && k.pages.pool == EmptyPool()
    requires 0 < b && b + 7 <= |k.m.mem| && k.m.mem[b + 1] == ZeroFrame()
    modifies k.pages, k.m`mem
    ensures k.Valid() && root == (b + 1) * PAGE_SIZE && slot < |k.pages.regions|
    ensures PoolReady(k.m.mem, k.pages.pool, b)
    ensures PoolOf(k.pages.pool, slot, b)
    ensures SameOutside(old(k.m.mem), k.m.mem, Run(b, 7))
  {
    hide PoolReady, Inv, RegionUsable;
    ghost var mem0, rs0 := k.m.mem, k.pages.regions;
    NoRegions(mem0, k.m.kernelBase, k.pages.chunks, rs0, k.pages.pool);
    PoolUsable(b, image);
    assert RegionClear(rs0, b * PAGE_SIZE, 7 * PAGE_SIZE);
    assert rs0[0].Absent?;
    var added := k.pages.AddRegion(b * PAGE_SIZE, 7 * PAGE_SIZE, false, image);
    ghost var mem1, rs1, p1 := k.m.mem, k.pages.regions, k.pages.pool;
    slot :| RegionAdded(rs0, EmptyPool(), mem0, rs1, p1, mem1, slot, b * PAGE_SIZE, 7 * PAGE_SIZE);
    FreshPool(rs0, mem0, rs1, p1, mem1, slot, b);
    RootFits(rs1, slot, b);
    var pa := k.pages.PageAlloc(1);
    RootIsNext(rs1, p1, mem1, k.pages.regions, k.pages.pool, k.m.mem, slot, b, pa);
    assert pa / PAGE_SIZE == b + 1;
    PoolIsReady(k.m.mem, k.pages.pool, b);
    root := PaToVa(k.m.kernelBase, pa);
  }

  ghost predicate PoolOf(p: Pool, slot: nat, b: nat) {
    && p.managed == Run(b, 7) && p.bitmaps == Run(b, 1) && p.bitmaps <= p.used <= p.managed
    && slot < 10 && p.spans == EmptyPool().spans[slot := (b, 7)]
  }

  /** Removing the only region leaves an empty allocator. */
  lemma PoolClosed(mem: Mem, base: nat, chunks: seq<Chunk>, rs: seq<Region>, p: Pool, slot: nat, b: nat,
                   rs': seq<Region>, p': Pool, j: nat)
    requires Inv(mem, base, chunks, rs, p) && PoolOf(p, slot, b)
    requires RegionRemoved(rs, p, rs', p', j, b * PAGE_SIZE)
    ensures p' == EmptyPool()
  {
    KnownChunk(mem, base, chunks, rs, p, j);
    assert p.spans[j] == SpanOf(rs[j]);
  }

  lemma PoolRegistered(mem: Mem, base: nat, chunks: seq<Chunk>, rs: seq<Region>, p: Pool, slot: nat, b: nat)
    requires Inv(mem, base, chunks, rs, p) && PoolOf(p, slot, b)
    ensures slot < |rs| && rs[slot].Region? && rs[slot].first * PAGE_SIZE == b * PAGE_SIZE
  {
    assert p.spans[slot] == SpanOf(rs[slot]);
  }

  lemma PoolStays(mem: Mem, t: Tree, p: Pool, mem': Mem, t': Tree, p': Pool, slot: nat, b: nat)
    requires Built(mem, t, p, mem', t', p') && PoolOf(p, slot, b) && t.Tables() <= Run(b + 1, 6)
    ensures PoolOf(p', slot, b) && t'.Tables() <= Run(b + 1, 6) && SameOutside(mem, mem', Run(b, 7))
  {
    hide TreeOk, TreeSafe, Unrestricted, Extends;
    BuiltInPool(mem, t, p, mem', t', p', b);
  }

  /** Image and serial page are mapped: the last step of setup_kernel_id_map before it drops the pool. */
  lemma IdMapFinished(mem0: Mem, mem1: Mem, p1: Pool, mem2: Mem, t2: Tree, p2: Pool, mem: Mem, t: Tree, p: Pool,
                      slot: nat, b: nat, image: Image, serial: nat)
    requires PoolOf(p1, slot, b) && PoolReady(mem1, p1, b) && SameOutside(mem0, mem1, Run(b, 7))
    requires ImageMapped(mem1, FreshTree(b + 1), p1, mem2, t2, p2, image.start, ImagePages(image)) && t2.root == b + 1
    requires Mapped(mem2, t2, p2, mem, t, p, serial, serial, DEVICE_PERMISSIONS, DEVICE)
    requires Progress(mem1, FreshTree(b + 1), p1, mem, t, p, IdMapPaths(image, serial))
    ensures IdMapDone(mem0, mem, t, b, image, serial) && PoolOf(p, slot, b)
  {
    hide TreeOk, TreeSafe, Built, Mapped, BlockMapped, Prefixes, PagePaths, ImagePages, PoolOf, IdMapped, Unrestricted,
         Paths, Grew;
    NoneEmptyPath(image, serial);
    TableCount(mem1, FreshTree(b + 1), p1, mem, t, p, IdMapPaths(image, serial));
    SerialMapped(mem2, t2, p2, mem, t, p, image, serial);
    BuiltRoot(mem1, FreshTree(b + 1), p1, mem, t, p);
    assert FreshTree(b + 1).Tables() == {b + 1};
    PoolStays(mem1, FreshTree(b + 1), p1, mem, t, p, slot, b);
  }

  lemma TableCount(mem0: Mem, t0: Tree, p0: Pool, mem: Mem, t: Tree, p: Pool, done: set<seq<nat>>)
    requires Progress(mem0, t0, p0, mem, t, p, done) && Paths(t0) == {[]} && [] !in done
    ensures |t.Tables()| == 1 + |done|
  {
    hide TreeSafe, Unrestricted, Linked, LinkOk;
    assert |{[]} + done| == 1 + |done|;
    AsManyPaths(t.path);
  }

  /** Gives the pool's region up. */
  method ClosePool(k: Mapper, b: nat, ghost slot: nat)
    requires k.Valid() && PoolOf(k.pages.pool, slot, b)
    modifies k.pages
    ensures k.Valid() && k.pages.pool == EmptyPool()
  {
    hide Inv, PoolOf;
    ghost var chunks, rs, p := k.pages.chunks, k.pages.regions, k.pages.pool;
    PoolRegistered(k.m.mem, k.m.kernelBase, chunks, rs, p, slot, b);
    var removed := k.pages.RemoveRegion(b * PAGE_SIZE);
    ghost var j: nat :| RegionRemoved(rs, p, k.pages.regions, k.pages.pool, j, b * PAGE_SIZE);
    PoolClosed(k.m.mem, k.m.kernelBase, chunks, rs, p, slot, b, k.pages.regions, k.pages.pool, j);
  }

  /** setup_kernel_id_map, with the pool at frame `b` and its root, zeroed, right behind the bitmap:
    it succeeds exactly when at most five tables are needed below the root. */
  method SetupKernelIdMap(k: Mapper, b: nat, image: Image, serial: nat) returns (ok: bool, ghost t: Tree)
    requires k.Valid() && k.m.kernelBase == 0 && k.pages.pool == EmptyPool()
    requires 0 < b && b + 7 <= |k.m.mem| && k.m.mem[b + 1] == ZeroFrame() && image.end <= |k.m.mem| * PAGE_SIZE
    modifies k.pages, k.m`mem
    ensures k.Valid()
    ensures ok <==>
            && (image.start < image.end ==> image.start % PAGE_SIZE == 0) && serial % PAGE_SIZE == 0
            && |IdMapPaths(image, serial)| <= 5
    ensures ok ==> k.pages.pool == EmptyPool() && IdMapDone(old(k.m.mem), k.m.mem, t, b, image, serial)
  {
    hide LeafInNumbers, TreeOk, TreeSafe, Mapped, NotMapped, Inv, PathPermits, Missing, PoolReady, ImageMapped,
         PagePaths, Prefixes, ImagePages, PoolOf, IdMapped, IdMapDone, Progress;
    ghost var mem0 := k.m.mem;
    ghost var slot;
    var root;
    t := FreshTree(b + 1);
    root, slot := OpenPool(k, b, image);
    ghost var mem1, p1, paths := k.m.mem, k.pages.pool, PagePaths(image.start, ImagePages(image));
    ok, t := MapImage(k, root, image, b);
    SmallerSet(paths, IdMapPaths(image, serial));
    if !ok {
      return;
    }
    ghost var mem2, t2, p2 := k.m.mem, t, k.pages.pool;
    ImageFacts(mem1, FreshTree(b + 1), p1, mem2, t2, p2, image.start, ImagePages(image), serial, DEVICE_PERMISSIONS);
    ok, t := k.MapPage(root, serial, serial, DEVICE_PERMISSIONS, DEVICE, t2);
    SerialTried(mem1, p1, b, mem2, t2, p2, k.m.mem, t, k.pages.pool, image, serial, ok);
    if !ok {
      return;
    }
    IdMapFinished(mem0, mem1, p1, mem2, t2, p2, k.m.mem, t, k.pages.pool, slot, b, image, serial);
    ClosePool(k, b, slot);
  }

  /** Every page of the image, off the serial page, is mapped to itself: EL1 reads, writes and executes it as normal
    memory. */
  lemma ImageRuns(mem0: Mem, mem: Mem, t: Tree, b: nat, image: Image, serial: nat, va: nat)
    requires IdMapDone(mem0, mem, t, b, image, serial) && t.root < |mem|
    requires image.start % 0x1000 == 0 && image.start <= va < image.end <= 0x1_0000_0000_0000 && va % 0x1000 == 0
    requires va / 0x1000 != serial / 0x1000 % 0x10_0000_0000
    ensures var w := Walk(mem, t.root, va);
            && |w| == 4 && w[3] == va + 0x707 && OutputAddress(w[3]) == va && AttrIndex(w[3]) == 1
            && Effective(w) == Access(true, true, false, false) && PrivExecutes(w)
  {
    hide TreeOk, Unrestricted, WalkFrom, Leads, SamePage, OutputAddress, AttrIndex, Effective, PrivExecutes,
         UserExecutes, IdMapPaths;
    var i := (va - image.start) / 0x1000;
    assert va == image.start + i * PAGE_SIZE && i < ImagePages(image);
    SamePageIff(serial, va);
    assert PageOf(va) == va / 0x1000;
    WalkUnrestrictive(mem, t, va);
    assert Leads(Walk(mem, t.root, va), va, Permissions(true, true, true, false), NORMAL);
    LeadsFour(Walk(mem, t.root, va), va, true, NORMAL);
    KernelWalk(Walk(mem, t.root, va), va, true, NORMAL);
    assert va % 0x4_0000_0000_0000 == va;
  }

  lemma LeadsFour(w: seq<Bits.Word>, pa: nat, execute: bool, memType: MemType)
    requires Leads(w, pa, Permissions(true, true, execute, false), memType)
    ensures |w| == 4
  {
  }

  /** The serial page is mapped to itself as device memory, which nobody executes. */
  lemma SerialAnswers(mem0: Mem, mem: Mem, t: Tree, b: nat, image: Image, serial: nat)
    requires IdMapDone(mem0, mem, t, b, image, serial) && t.root < |mem|
    requires serial % 0x1000 == 0 && serial < 0x1_0000_0000_0000
    ensures var w := Walk(mem, t.root, serial);
            && |w| == 4 && w[3] == serial + 0x60_0000_0000_0403 && OutputAddress(w[3]) == serial && AttrIndex(w[3]) == 0
            && Effective(w) == Access(true, true, false, false) && !PrivExecutes(w) && !UserExecutes(w)
  {
    hide TreeOk, Unrestricted, WalkFrom, Leads, SamePage, OutputAddress, AttrIndex, Effective, PrivExecutes,
         UserExecutes, IdMapPaths, ImagePages;
    WalkUnrestrictive(mem, t, serial);
    LeadsFour(Walk(mem, t.root, serial), serial, false, DEVICE);
    KernelWalk(Walk(mem, t.root, serial), serial, false, DEVICE);
    assert serial % 0x4_0000_0000_0000 == serial;
  }

  lemma NoneEmptyPath(image: Image, serial: nat)
    ensures [] !in IdMapPaths(image, serial)
  {
    hide Index;
    NoEmptyPath(image.start, ImagePages(image));
  }

  // ---- how much fits

  /** Indices and quotients, level by level. */
  lemma QuotientStep(va: nat, n: nat)
    requires va < MAP_LIMIT && 0 < n <= 3
    ensures va / Stride(n) == 512 * (va / Stride(n - 1)) + Index(va, n)
  {
    assert Stride(n) * 512 == Stride(n - 1);
    Bits.DivDiv(va, Stride(n), 512);
  }

  lemma TopIndex(va: nat)
    requires va < MAP_LIMIT
    ensures Index(va, 0) == va / Stride(0)
  {
  }

  lemma PrefixSplit(va: nat, va': nat, n: nat)
    requires n < 3
    ensures Prefix(va, n + 1) == Prefix(va', n + 1) <==>
              Prefix(va, n) == Prefix(va', n) && Index(va, n) == Index(va', n)
  {
    hide Index;
    PrefixNext(va, n);
    PrefixNext(va', n);
    var p, p' := Prefix(va, n + 1), Prefix(va', n + 1);
    assert p[..n] == Prefix(va, n) && p'[..n] == Prefix(va', n);
    assert p[n] == Index(va, n) && p'[n] == Index(va', n);
  }

  /** Paths of length `n` are equal exactly when the address bits they come from are. */
  lemma {:induction false} SamePrefix(va: nat, va': nat, n: nat)
    requires va < MAP_LIMIT && va' < MAP_LIMIT && 0 < n <= 3
    ensures Prefix(va, n) == Prefix(va', n) <==> va / Stride(n - 1) == va' / Stride(n - 1)
    decreases n
  {
    PrefixSplit(va, va', n - 1);
    hide Index, Prefix, Stride;
    if n > 1 {
      SamePrefix(va, va', n - 1);
      QuotientStep(va, n - 1);
      QuotientStep(va', n - 1);
    } else {
      TopIndex(va);
      TopIndex(va');
    }
  }

  lemma SameBlock(va: nat, va': nat)
    requires va < MAP_LIMIT && va' < MAP_LIMIT && va / Stride(2) == va' / Stride(2)
    ensures Prefixes(va) == Prefixes(va')
  {
    hide Index, Prefix, Stride;
    SamePrefix(va, va', 3);
    PrefixSplit(va, va', 2);
    PrefixSplit(va, va', 1);
  }

  /** All pages of an image inside one 2 MB block share their tables. */
  lemma {:induction false} OneBlock(start: nat, n: nat)
    requires n > 0 && start + (n - 1) * PAGE_SIZE < MAP_LIMIT
    requires (start + (n - 1) * PAGE_SIZE) / Stride(2) == start / Stride(2)
    ensures PagePaths(start, n) == Prefixes(start)
  {
    var va := start + (n - 1) * PAGE_SIZE;
    SameBlock(va, start);
    if n > 1 {
      assert (start + (n - 2) * PAGE_SIZE) / Stride(2) == start / Stride(2);
      hide Prefixes, Stride;
      OneBlock(start, n - 1);
    } else {
      assert PagePaths(start, 0) == {};
    }
  }

  lemma SamePageBlocks(a: nat, b: nat)
    requires a % PAGE_SIZE == 0 && a <= b < a + PAGE_SIZE
    ensures a / Stride(2) == b / Stride(2) && a / Stride(1) == b / Stride(1)
  {
    assert a / PAGE_SIZE == b / PAGE_SIZE;
    Bits.DivDiv(a, PAGE_SIZE, 512);
    Bits.DivDiv(b, PAGE_SIZE, 512);
    Bits.DivDiv(a, PAGE_SIZE, 512 * 512);
    Bits.DivDiv(b, PAGE_SIZE, 512 * 512);
  }

  /** The last page visited lies in the same blocks as the last byte. */
  lemma LastPage(image: Image) returns (last: nat)
    requires image.start < image.end <= MAP_LIMIT && image.start % PAGE_SIZE == 0
    ensures last == image.start + (ImagePages(image) - 1) * PAGE_SIZE && ImagePages(image) > 0
    ensures last / Stride(2) == (image.end - 1) / Stride(2) && last / Stride(1) == (image.end - 1) / Stride(1)
    ensures last < image.end
  {
    last := image.start + (ImagePages(image) - 1) * PAGE_SIZE;
    hide Stride;
    SamePageBlocks(last, image.end - 1);
  }

  lemma OneMore<T>(s: set<T>, a: T)
    requires a !in s
    ensures |s + {a}| == |s| + 1
  {
  }

  lemma ThreePrefixes(va: nat)
    ensures |Prefixes(va)| == 3
  {
    hide Prefix;
    assert |Prefix(va, 1)| == 1 && |Prefix(va, 2)| == 2 && |Prefix(va, 3)| == 3;
    CountThree(Prefix(va, 1), Prefix(va, 2), Prefix(va, 3), {});
    assert Prefixes(va) - {} == Prefixes(va);
  }

  /** Two tables more for a page in another 1 GB slot of the same 512 GB slot. */
  lemma TwoMore(paths: set<seq<nat>>, va: nat)
    requires Prefix(va, 1) in paths && Prefix(va, 2) !in paths && Prefix(va, 3) !in paths
    ensures |paths + Prefixes(va)| == |paths| + 2
  {
    hide Prefix;
    assert |Prefix(va, 2)| == 2 && |Prefix(va, 3)| == 3;
    OneMore(paths, Prefix(va, 2));
    OneMore(paths + {Prefix(va, 2)}, Prefix(va, 3));
    assert paths + Prefixes(va) == paths + {Prefix(va, 2)} + {Prefix(va, 3)};
  }

  /** Addresses in different 1 GB slots share neither their level 2 nor their level 3 table. */
  lemma OtherSlot(va: nat, va': nat)
    requires va < MAP_LIMIT && va' < MAP_LIMIT && va / Stride(1) != va' / Stride(1)
    ensures Prefix(va, 2) != Prefix(va', 2) && Prefix(va, 3) != Prefix(va', 3)
  {
    SamePrefix(va, va', 2);
    SamePrefix(va, va', 3);
    Bits.DivDiv(va, Stride(2), 512);
    Bits.DivDiv(va', Stride(2), 512);
  }

  lemma NotAmong(va: nat, va': nat)
    requires Prefix(va, 2) != Prefix(va', 2) && Prefix(va, 3) != Prefix(va', 3)
    ensures Prefix(va, 2) !in Prefixes(va') && Prefix(va, 3) !in Prefixes(va')
  {
    hide Prefix;
    assert |Prefix(va, 2)| == 2 && |Prefix(va, 3)| == 3;
    assert |Prefix(va', 1)| == 1 && |Prefix(va', 2)| == 2 && |Prefix(va', 3)| == 3;
  }

  /** With the serial page in the image's 512 GB slot but in none of its 1 GB slots, five tables are
    enough exactly for an image inside one 2 MB block, and then all five are used. */
  lemma IdMapBound(image: Image, serial: nat)
    requires image.start < image.end <= MAP_LIMIT && image.start % PAGE_SIZE == 0 && serial < MAP_LIMIT
    requires serial / Stride(0) == image.start / Stride(0)
    requires serial / Stride(1) < image.start / Stride(1) || (image.end - 1) / Stride(1) < serial / Stride(1)
    ensures |IdMapPaths(image, serial)| <= ID_MAP_NUM_PAGES - 1 <==>
              image.start / Stride(2) == (image.end - 1) / Stride(2)
    ensures image.start / Stride(2) == (image.end - 1) / Stride(2) ==> |IdMapPaths(image, serial)| == 5
  {
    hide Prefix, Prefixes, ImagePages, Stride;
    var start, n := image.start, ImagePages(image);
    var last := ApartFromSerial(image, serial);
    NotAmong(serial, start);
    ThreePrefixes(start);
    if start / Stride(2) == last / Stride(2) {
      OneBlock(start, n);
      TwoMore(Prefixes(start), serial);
    } else {
      TwoBlocks(image, last, serial);
    }
  }

  lemma ApartFromSerial(image: Image, serial: nat) returns (last: nat)
    requires image.start < image.end <= MAP_LIMIT && image.start % PAGE_SIZE == 0 && serial < MAP_LIMIT
    requires serial / Stride(0) == image.start / Stride(0)
    requires serial / Stride(1) < image.start / Stride(1) || (image.end - 1) / Stride(1) < serial / Stride(1)
    ensures last == image.start + (ImagePages(image) - 1) * PAGE_SIZE && ImagePages(image) > 0 && last < MAP_LIMIT
    ensures last / Stride(2) == (image.end - 1) / Stride(2)
    ensures Prefix(serial, 2) != Prefix(image.start, 2) && Prefix(serial, 3) != Prefix(image.start, 3)
    ensures Prefix(serial, 3) != Prefix(last, 3) && Prefix(serial, 1) in Prefixes(image.start)
  {
    hide Prefix, Prefixes, ImagePages;
    last := LastPage(image);
    assert image.start / Stride(1) <= last / Stride(1);
    hide Stride;
    OtherSlot(serial, image.start);
    OtherSlot(serial, last);
    SharedFirst(serial, image.start);
  }

  lemma SharedFirst(va: nat, va': nat)
    requires va < MAP_LIMIT && va' < MAP_LIMIT && va / Stride(0) == va' / Stride(0)
    ensures Prefix(va, 1) in Prefixes(va')
  {
    hide Prefix;
    SamePrefix(va, va', 1);
  }

  lemma TwoBlocks(image: Image, last: nat, serial: nat)
    requires ImagePages(image) > 0 && last == image.start + (ImagePages(image) - 1) * PAGE_SIZE
    requires image.start < MAP_LIMIT && last < MAP_LIMIT && image.start / Stride(2) != last / Stride(2)
    requires Prefix(serial, 1) in Prefixes(image.start)
    requires Prefix(serial, 2) !in Prefixes(image.start) && Prefix(serial, 3) !in Prefixes(image.start)
    requires Prefix(serial, 3) != Prefix(last, 3)
    ensures |IdMapPaths(image, serial)| > 5
  {
    hide Prefix, ImagePages, Stride, Index, Prefixes;
    var start, n := image.start, ImagePages(image);
    var some := Prefixes(start) + {Prefix(last, 3)};
    OtherBlock(start, last);
    PagePathsGrow(start, n, n);
    assert start + 0 * PAGE_SIZE == start;
    ThreePrefixes(start);
    OneMore(Prefixes(start), Prefix(last, 3));
    LengthsDiffer(serial, last);
    TwoMore(some, serial);
    assert some <= PagePaths(start, n);
    SmallerSet(some + Prefixes(serial), IdMapPaths(image, serial));
  }

  lemma OtherBlock(va: nat, va': nat)
    requires va < MAP_LIMIT && va' < MAP_LIMIT && va / Stride(2) != va' / Stride(2)
    ensures Prefix(va', 3) !in Prefixes(va) && Prefix(va', 3) in Prefixes(va')
  {
    hide Prefix, Stride;
    SamePrefix(va, va', 3);
    assert |Prefix(va', 3)| == 3 && |Prefix(va, 1)| == 1 && |Prefix(va, 2)| == 2;
  }

  lemma LengthsDiffer(va: nat, va': nat)
    ensures Prefix(va, 2) != Prefix(va', 3) && Prefix(va, 1) != Prefix(va', 3)
  {
    assert |Prefix(va', 3)| == 3 && |Prefix(va, 1)| == 1 && |Prefix(va, 2)| == 2;
  }
}
