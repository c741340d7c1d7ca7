/** The state of the whole memory system, and what every operation on it keeps. */
module MemoryState {
  import opened Bits
  import opened Memory
  import opened PhysicalPages
  import opened PageAllocation
  import opened HeapModel
  import opened HeapOwnership
  import opened KernelHeap
  import opened Descriptors
  import opened TranslationTree
  import opened PageTables
  import opened TableGrowth
  import opened KernelMap

  /** Page tables and pages held by clients are used pages, none the heap's, no bitmap, and disjoint. */
  ghost predicate Owners(p: Pool, chain: seq<nat>, live: seq<Entry>, t: Tree, held: set<nat>) {
    && t.Tables() <= Rest(p, chain, live) && held <= Rest(p, chain, live)
    && t.Tables() !! p.bitmaps && held !! p.bitmaps && t.Tables() !! held
  }

  /** What the clients were given: page runs by first frame, each in one chunk, pairwise disjoint, and
    apart from pages that were pinned, that is, reserved for good. */
  ghost predicate Ledger(p: Pool, held: set<nat>, runs: map<nat, nat>, pinned: set<nat>) {
    && pinned <= held
    && (forall f :: f in runs ==> Run(f, runs[f]) !! pinned)
    && (forall f :: f in runs ==> runs[f] > 0 && Run(f, runs[f]) <= held && p.Within(f, runs[f]))
    && (forall f, g :: f in runs && g in runs && f != g ==> Run(f, runs[f]) !! Run(g, runs[g]))
  }

  ghost predicate HeapOk(mem: Mem, base: nat, head: nat, first: nat, chain: seq<nat>, live: seq<Entry>, p: Pool) {
    HeapStored(mem, base, head, first, chain, live, LiveSlots(live)) && Owns(chain, live, p)
      && AtMostOneEmpty(chain, live)
  }

  /** Memory and everything that is kept in it. */
  datatype State = State(mem: Mem, base: nat, image: Image, head: nat, first: nat, chain: seq<nat>, live: seq<Entry>,
                         regions: seq<Region>, pool: Pool, tree: Tree, held: set<nat>, runs: map<nat, nat>,
                           pinned: set<nat>)

  ghost predicate System(s: State) {
    && HeapOk(s.mem, s.base, s.head, s.first, s.chain, s.live, s.pool)
    && TreeOk(s.mem, s.tree) && Unrestricted(s.mem, s.tree)
    && Owners(s.pool, s.chain, s.live, s.tree, s.held)
    && Ledger(s.pool, s.held, s.runs, s.pinned)
    && s.pool.bitmaps <= s.pool.used <= s.pool.managed
  }

  /** In the high half the kernel's own map leads to every page the allocator has, so to every bitmap, descriptor,
    block and table, at the address that pointer arithmetic gives. */
  ghost predicate Linear(s: State) {
    s.base == KERNEL_BASE ==> LinearFrames(s.mem, s.tree.root, s.image, s.pool.managed)
  }

  ghost predicate Intact(s: State) {
    System(s) && Linear(s)
  }

  /** What no operation undoes. */
  ghost predicate Onward(s: State, s': State) {
    && s'.base == s.base && s'.image == s.image && |s'.mem| == |s.mem|
    && Extends(s.tree, s'.tree) && s.pinned <= s'.pinned
  }

  /** Translations that stay as they are lead to whatever they led to. */
  lemma LinearKept(s: State, s': State, more: set<nat>)
    requires Linear(s) && SameWalks(s.mem, s'.mem, s.tree.root) && s'.tree.root == s.tree.root && s'.base == s.base
             && s'.image == s.image
    requires s'.pool.managed <= s.pool.managed + more
    requires s.base == KERNEL_BASE ==> LinearFrames(s.mem, s.tree.root, s.image, more)
    ensures Linear(s')
  {
    hide Leads, WalkFrom, Unrestrictive, LinearPermissions;
    if s.base == KERNEL_BASE {
      forall f | f in s'.pool.managed
        ensures LinearAt(s'.mem, s'.tree.root, s'.image, f * PAGE_SIZE)
      {
        assert LinearAt(s.mem, s.tree.root, s.image, f * PAGE_SIZE);
        assert Walk(s'.mem, s.tree.root, KERNEL_BASE + f * PAGE_SIZE) == Walk(s.mem, s.tree.root,
                                                                              KERNEL_BASE + f * PAGE_SIZE);
      }
    }
  }

  // ---- writes

  /** A write outside the management pages and tables changes neither heap nor translation. */
  lemma WrittenElsewhere(mem: Mem, mem': Mem, changed: set<nat>, base: nat, head: nat, first: nat, chain: seq<nat>,
                         live: seq<Entry>, p: Pool, t: Tree)
    requires HeapOk(mem, base, head, first, chain, live, p) && TreeOk(mem, t) && Unrestricted(mem, t)
    requires SameOutside(mem, mem', changed) && Members(chain) !! changed && t.Tables() !! changed
    ensures HeapOk(mem', base, head, first, chain, live, p) && TreeOk(mem', t) && Unrestricted(mem', t)
            && SameWalks(mem, mem', t.root)
  {
    hide HeapStored, Owns, AtMostOneEmpty, TreeOk, Unrestricted;
    SameTables(mem, mem', t, changed);
    HeapElsewhere(mem, mem', base, head, first, chain, live, LiveSlots(live), changed);
    TreeElsewhere(mem, mem', t, changed);
    WalksElsewhere(mem, mem', t, changed);
  }

  /** Neither the page allocator nor heap or tables care about a client's page. */
  lemma OffMetadata(p: Pool, chain: seq<nat>, live: seq<Entry>, t: Tree, held: set<nat>)
    requires Owners(p, chain, live, t, held) && Owns(chain, live, p)
    ensures Members(chain) !! p.bitmaps && t.Tables() !! p.bitmaps && Members(chain) !! t.Tables()
    ensures held !! p.bitmaps && held !! Members(chain) && held !! t.Tables()
    ensures forall i: nat :: i < |live| ==>
                          live[i].Frames() !! p.bitmaps && live[i].Frames() !! Members(chain)
                            && live[i].Frames() !! t.Tables() && live[i].Frames() !! held
    ensures Members(chain) <= p.used && t.Tables() <= p.used && held <= p.used
    ensures forall i: nat :: i < |live| ==> live[i].Frames() <= p.used
    ensures forall i: nat, j: nat :: i < |live| && j < |live| && i != j ==> live[i].Frames() !! live[j].Frames()
  {
    OwnedPages(chain, live, p);
    assert forall f :: f in Members(chain) ==> InHeap(chain, live, f);
    forall i: nat | i < |live|
      ensures live[i].Frames() !! p.bitmaps && live[i].Frames() <= p.used && live[i].Frames() !! Members(chain)
      ensures live[i].Frames() !! t.Tables() && live[i].Frames() !! held
    {
      assert EntryOwned(live[i], p);
      assert forall f :: f in live[i].Frames() ==> InHeap(chain, live, f);
      forall f | f in Members(chain)
        ensures f !in live[i].Frames()
      {
        var k: nat :| k < |chain| && chain[k] == f;
      }
    }
  }

  // ---- growing and shrinking the used set

  lemma HeapIsUsed(chain: seq<nat>, live: seq<Entry>, p: Pool, f: nat)
    requires Owns(chain, live, p) && InHeap(chain, live, f)
    ensures f in p.used
  {
    if f in chain {
      var k: nat :| k < |chain| && chain[k] == f;
      assert PageOwned(chain[k], p);
    } else {
      var i: nat :| i < |live| && f in live[i].Frames();
      assert EntryOwned(live[i], p);
    }
  }

  /** Runs in use inside one chunk stay inside one chunk. */
  ghost predicate SpansKept(p: Pool, p': Pool) {
    forall f: nat, n: nat :: n > 0 && p.Within(f, n) && f in p.used && f !in p.bitmaps ==> p'.Within(f, n)
  }

  lemma HeapStillOwns(chain: seq<nat>, live: seq<Entry>, p: Pool, p': Pool)
    requires Owns(chain, live, p) && SpansKept(p, p')
    requires forall f :: InHeap(chain, live, f) && f in p.used && f !in p.bitmaps ==> f in p'.used && f !in p'.bitmaps
    ensures Owns(chain, live, p')
  {
    forall i: nat | i < |chain|
      ensures PageOwned(chain[i], p')
    {
      assert PageOwned(chain[i], p) && InHeap(chain, live, chain[i]);
    }
    forall i: nat | i < |live|
      ensures EntryOwned(live[i], p')
    {
      assert EntryOwned(live[i], p) && live[i].first in live[i].Frames();
      assert forall f :: f in live[i].Frames() ==> InHeap(chain, live, f);
    }
  }

  lemma RestGrows(chain: seq<nat>, live: seq<Entry>, p: Pool, p': Pool, extra: set<nat>)
    requires Owns(chain, live, p) && p'.used == p.used + extra && extra !! p.used
    ensures Rest(p', chain, live) == Rest(p, chain, live) + extra
  {
    forall f | f in extra
      ensures !InHeap(chain, live, f)
    {
      if InHeap(chain, live, f) {
        HeapIsUsed(chain, live, p, f);
      }
    }
  }

  lemma RestShrinks(chain: seq<nat>, live: seq<Entry>, p: Pool, p': Pool, gone: set<nat>)
    requires p'.used == p.used - gone
    ensures Rest(p', chain, live) == Rest(p, chain, live) - gone
  {
  }

  // ---- what each operation does

  /** page_alloc: a run of pages that were free is the client's. */
  ghost predicate PagesGiven(s: State, s': State, n: nat, pa: nat) {
    && n > 0 && PagesTaken(s.regions, s.pool, s.mem, s'.regions, s'.pool, s'.mem, n, pa)
    && FramesTaken(s.pool, s.mem, s'.pool, s'.mem, n, pa)
    && s' == s.(mem := s'.mem, regions := s'.regions, pool := s'.pool,
                held := s.held + Run(pa / PAGE_SIZE, n), runs := s.runs[pa / PAGE_SIZE := n])
  }

  /** Runs without pages `i .. i + n` of the one that begins at frame `f`; what is left of it is up to two runs. */
  function FreedPart(runs: map<nat, nat>, f: nat, i: nat, n: nat): map<nat, nat>
    requires f in runs && i + n <= runs[f]
  {
    var others := runs - {f};
    var front := if i > 0 then others[f := i] else others;
    if i + n < runs[f] then front[f + i + n := runs[f] - i - n] else front
  }

  /** page_free: pages `i .. i + n` of a client's run are free again. */
  ghost predicate PagesBack(s: State, s': State, f: nat, i: nat, n: nat) {
    && f in s.runs && n > 0 && i + n <= s.runs[f]
    && PagesReturned(s.regions, s.pool, s.mem, s'.regions, s'.pool, s'.mem, f + i, n)
    && FramesReturned(s.pool, s.mem, s'.pool, s'.mem, f + i, n)
    && s' == s.(mem := s'.mem, regions := s'.regions, pool := s'.pool,
                held := s.held - Run(f + i, n), runs := FreedPart(s.runs, f, i, n))
  }

  /** reserve_page: pages that were free are pinned. */
  ghost predicate PagesPinned(s: State, s': State, start: nat, n: nat) {
    var run := Run(start / PAGE_SIZE, n);
    && PagesReserved(s.regions, s.pool, s.mem, s'.regions, s'.pool, s'.mem, start / PAGE_SIZE, n)
    && s'.pool == s.pool.(used := s.pool.used + run) && run <= s.pool.managed
    && SameOutside(s.mem, s'.mem, s.pool.bitmaps)
    && s' == s.(mem := s'.mem, regions := s'.regions, pool := s'.pool,
                held := s.held + (run - s.pool.used), pinned := s.pinned + (run - s.pool.used))
  }

  /** page_allocator_add_region: the first free slot holds a chunk. */
  ghost predicate RegionJoined(s: State, s': State, k: nat, memStart: nat, memSize: nat) {
    && RegionAdded(s.regions, s.pool, s.mem, s'.regions, s'.pool, s'.mem, k, memStart, memSize)
    && (forall j: nat :: j < k ==> s.regions[j].Region?)
    && s' == s.(mem := s'.mem, regions := s'.regions, pool := s'.pool)
  }

  ghost predicate RegionRejected(s: State, s': State, memStart: nat, memSize: nat) {
    && RegionRefused(s.regions, s.pool, s.mem, s'.regions, s'.pool, s'.mem, memStart, memSize)
    && s' == s.(mem := s'.mem)
  }

  ghost predicate RegionGone(s: State, s': State, k: nat, memStart: nat) {
    && RegionRemoved(s.regions, s.pool, s'.regions, s'.pool, k, memStart)
    && s' == s.(regions := s'.regions, pool := s'.pool)
  }

  /** Everything that is not the heap's is as it was. */
  ghost predicate HeapOnly(s: State, s': State) {
    s' == s.(mem := s'.mem, head := s'.head, first := s'.first, chain := s'.chain, live := s'.live,
             regions := s'.regions, pool := s'.pool)
  }

  /** kmalloc, granted: the first fit, once there is a descriptor. */
  ghost predicate BlockMade(s: State, s': State, size: nat, ptr: nat) {
    && BlockGranted(s.base, s.chain, s.live, s.pool, s.mem, s'.chain, s'.live, s'.pool, s'.mem, size, ptr)
    && KmallocFit(s.base, s.chain, s.live, s.regions, s'.regions, size, ptr) && HeapOnly(s, s')
  }

  /** kmalloc, refused. */
  ghost predicate BlockRefused(s: State, s': State, size: nat) {
    && BlockDenied(s.chain, s.live, s.pool, s.mem, s'.chain, s'.live, s'.pool, s'.mem)
    && KmallocFit(s.base, s.chain, s.live, s.regions, s'.regions, size, 0) && HeapOnly(s, s')
  }

  /** kfree of a live block. */
  ghost predicate BlockGone(s: State, s': State, ptr: nat) {
    && BlockFreed(s.base, s.chain, s.live, s.pool, s.mem, s'.chain, s'.live, s'.pool, s'.mem, ptr)
    && HeapOnly(s, s')
  }

  ghost predicate TablesOnly(s: State, s': State) {
    s' == s.(mem := s'.mem, regions := s'.regions, pool := s'.pool, tree := s'.tree)
  }

  /** map_page, granted or refused. */
  ghost predicate MapTried(s: State, s': State, va: nat, pa: nat, perms: Permissions, memType: MemType, ok: bool) {
    && TablesOnly(s, s')
    && if ok then Mapped(s.mem, s.tree, s.pool, s'.mem, s'.tree, s'.pool, va, pa, perms, memType)
       else NotMapped(s.mem, s.tree, s.pool, s'.mem, s'.tree, s'.pool)
  }

  /** No page of the allocator is reached at `va`. */
  ghost predicate OffLinear(s: State, va: nat) {
    s.base == KERNEL_BASE ==> forall f :: f in s.pool.managed ==> !SamePage(va, KERNEL_BASE + f * PAGE_SIZE)
  }

  /** Word `j` of frame `f` is overwritten, and that is all. */
  ghost predicate WordWritten(s: State, s': State, f: nat, j: nat, w: Word) {
    f < |s.mem| && j < 512 && s' == s.(mem := s.mem[f := s.mem[f][j := w]])
  }

  // ---- what each operation keeps

  /** Only bitmaps or unowned memory were written, and used pages stay used and keep their chunk: heap and tables stay
    as they are. */
  lemma StructuresStay(s: State, mem': Mem, p': Pool, changed: set<nat>)
    requires System(s) && SameOutside(s.mem, mem', changed) && SpansKept(s.pool, p')
    requires Members(s.chain) !! changed && s.tree.Tables() !! changed
    requires forall f ::
               InHeap(s.chain, s.live, f) && f in s.pool.used && f !in s.pool.bitmaps ==>
                 f in p'.used && f !in p'.bitmaps
    ensures HeapOk(mem', s.base, s.head, s.first, s.chain, s.live, p') && TreeOk(mem', s.tree)
            && Unrestricted(mem', s.tree)
    ensures SameWalks(s.mem, mem', s.tree.root)
  {
    hide HeapStored, Owns, AtMostOneEmpty, TreeOk, Unrestricted, Owners, Ledger, SpansKept;
    WrittenElsewhere(s.mem, mem', changed, s.base, s.head, s.first, s.chain, s.live, s.pool, s.tree);
    HeapStillOwns(s.chain, s.live, s.pool, p');
  }

  lemma SameSpans(p: Pool, p': Pool)
    requires p'.spans == p.spans
    ensures SpansKept(p, p')
  {
  }

  lemma LedgerGrows(p: Pool, p': Pool, held: set<nat>, runs: map<nat, nat>, pinned: set<nat>, f: nat, n: nat)
    requires Ledger(p, held, runs, pinned) && SpansKept(p, p') && held <= p.used && held !! p.bitmaps
    requires Run(f, n) !! held && n > 0 && p'.Within(f, n)
    ensures Ledger(p', held + Run(f, n), runs[f := n], pinned) && f !in runs
  {
    assert f in Run(f, n);
    assert forall g :: g in runs ==> g in Run(g, runs[g]);
  }

  /** Every run that is left is another's, or one of the two ends of the run that was freed in part. */
  lemma LeftRun(runs: map<nat, nat>, f: nat, i: nat, n: nat, g: nat) returns (h: nat)
    requires f in runs && i + n <= runs[f] && g in FreedPart(runs, f, i, n)
    requires forall g :: g in runs ==> runs[g] > 0
    ensures h in runs
    ensures var m := FreedPart(runs, f, i, n)[g];
            && m > 0 && h <= g && g + m <= h + runs[h]
            && if h == f then (g == f && m == i) || (g == f + i + n && m == runs[f] - i - n) else g == h && m == runs[h]
  {
    h := if g == f || (i + n < runs[f] && g == f + i + n) then f else g;
  }

  lemma WithinPart(p: Pool, f: nat, n: nat, g: nat, m: nat)
    requires p.Within(f, n) && f <= g && g + m <= f + n
    ensures p.Within(g, m)
  {
  }

  lemma LedgerShrinks(p: Pool, p': Pool, held: set<nat>, runs: map<nat, nat>, pinned: set<nat>, f: nat, i: nat, n: nat)
    requires Ledger(p, held, runs, pinned) && SpansKept(p, p') && held <= p.used && held !! p.bitmaps
    requires f in runs && n > 0 && i + n <= runs[f]
    ensures Ledger(p', held - Run(f + i, n), FreedPart(runs, f, i, n), pinned)
  {
    hide FreedPart, Pool.Within;
    var runs' := FreedPart(runs, f, i, n);
    forall g | g in runs'
      ensures runs'[g] > 0 && Run(g, runs'[g]) <= held - Run(f + i, n) && Run(g, runs'[g]) !! pinned
              && p'.Within(g, runs'[g])
    {
      var h := LeftRun(runs, f, i, n, g);
      assert Run(g, runs'[g]) <= Run(h, runs[h]) && g in Run(g, runs'[g]);
      assert h != f ==> Run(h, runs[h]) !! Run(f, runs[f]);
      assert Run(f + i, n) <= Run(f, runs[f]);
      WithinPart(p, h, runs[h], g, runs'[g]);
    }
    forall g, g' | g in runs' && g' in runs' && g != g'
      ensures Run(g, runs'[g]) !! Run(g', runs'[g'])
    {
      var h := LeftRun(runs, f, i, n, g);
      var h' := LeftRun(runs, f, i, n, g');
      assert Run(g, runs'[g]) <= Run(h, runs[h]) && Run(g', runs'[g']) <= Run(h', runs[h']);
      assert h != h' ==> Run(h, runs[h]) !! Run(h', runs[h']);
    }
    assert Run(f + i, n) <= Run(f, runs[f]);
  }

  lemma LedgerStays(p: Pool, p': Pool, held: set<nat>, runs: map<nat, nat>, pinned: set<nat>, more: set<nat>)
    requires Ledger(p, held, runs, pinned) && SpansKept(p, p') && held <= p.used && held !! p.bitmaps && more !! held
    ensures Ledger(p', held + more, runs, pinned + more)
  {
    assert forall g :: g in runs ==> g in Run(g, runs[g]);
  }

  lemma HeapOwns(s: State)
    requires System(s)
    ensures Owns(s.chain, s.live, s.pool)
  {
  }

  /** page_alloc gives the caller pages that were nobody's. */
  lemma TakeKeeps(s: State, s': State, n: nat, pa: nat)
    requires Intact(s) && PagesGiven(s, s', n, pa)
    ensures Intact(s') && Onward(s, s') && SameWalks(s.mem, s'.mem, s.tree.root) && pa / PAGE_SIZE !in s.runs
  {
    hide HeapOk, TreeOk, Unrestricted, Ledger, SpansKept, Linear, LinearFrames, PagesTaken, PagesReturned,
         PagesReserved;
    var run := Run(pa / PAGE_SIZE, n);
    assert Owns(s.chain, s.live, s.pool) by { HeapOwns(s); }
    OffMetadata(s.pool, s.chain, s.live, s.tree, s.held);
    SameSpans(s.pool, s'.pool);
    StructuresStay(s, s'.mem, s'.pool, s.pool.bitmaps);
    RestGrows(s.chain, s.live, s.pool, s'.pool, run);
    LedgerGrows(s.pool, s'.pool, s.held, s.runs, s.pinned, pa / PAGE_SIZE, n);
    NoFrames(s.mem, s.tree.root, s.image);
    LinearKept(s, s', {});
  }

  lemma NoFrames(mem: Mem, root: nat, image: Image)
    ensures LinearFrames(mem, root, image, {})
  {
  }

  /** page_free takes back pages the caller held. */
  lemma ReturnKeeps(s: State, s': State, f: nat, i: nat, n: nat)
    requires Intact(s) && PagesBack(s, s', f, i, n)
    ensures Intact(s') && Onward(s, s') && SameWalks(s.mem, s'.mem, s.tree.root)
  {
    hide HeapOk, TreeOk, Unrestricted, SpansKept, Linear, LinearFrames, PagesReturned, FreedPart;
    var run := Run(f + i, n);
    assert Owns(s.chain, s.live, s.pool) by { HeapOwns(s); }
    OffMetadata(s.pool, s.chain, s.live, s.tree, s.held);
    SameSpans(s.pool, s'.pool);
    assert run <= Run(f, s.runs[f]) <= s.held;
    assert forall g :: g in run ==> !InHeap(s.chain, s.live, g);
    StructuresStay(s, s'.mem, s'.pool, s.pool.bitmaps);
    RestShrinks(s.chain, s.live, s.pool, s'.pool, run);
    LedgerShrinks(s.pool, s'.pool, s.held, s.runs, s.pinned, f, i, n);
    NoFrames(s.mem, s.tree.root, s.image);
    LinearKept(s, s', {});
  }

  /** reserve_page marks pages; those that were free become held for good. */
  lemma ReserveKeeps(s: State, s': State, start: nat, n: nat)
    requires Intact(s) && PagesPinned(s, s', start, n)
    ensures Intact(s') && Onward(s, s') && SameWalks(s.mem, s'.mem, s.tree.root)
  {
    hide HeapOk, TreeOk, Unrestricted, Ledger, SpansKept, Linear, LinearFrames, PagesTaken, PagesReturned,
         PagesReserved;
    var extra := Run(start / PAGE_SIZE, n) - s.pool.used;
    assert Owns(s.chain, s.live, s.pool) by { HeapOwns(s); }
    OffMetadata(s.pool, s.chain, s.live, s.tree, s.held);
    SameSpans(s.pool, s'.pool);
    StructuresStay(s, s'.mem, s'.pool, s.pool.bitmaps);
    assert s'.pool.used == s.pool.used + extra;
    RestGrows(s.chain, s.live, s.pool, s'.pool, extra);
    LedgerStays(s.pool, s'.pool, s.held, s.runs, s.pinned, extra);
    NoFrames(s.mem, s.tree.root, s.image);
    LinearKept(s, s', {});
  }

  lemma NewSpanKept(p: Pool, k: nat, first: nat, pages: nat)
    requires k < |p.spans| && p.spans[k] == (0, 0)
    ensures SpansKept(p, WithRegion(p, k, first, pages))
  {
    var p' := WithRegion(p, k, first, pages);
    forall f: nat, n: nat | n > 0 && p.Within(f, n)
      ensures p'.Within(f, n)
    {
      var j: nat :| j < |p.spans| && p.spans[j].0 <= f && f + n <= p.spans[j].0 + p.spans[j].1;
      assert p'.spans[j] == p.spans[j];
    }
  }

  /** Frames the region offers. */
  function RegionFrames(memStart: nat, memSize: nat): set<nat> {
    Run(FirstFrame(memStart), WholePages(memStart, memSize))
  }

  /** A new region's bitmap goes where nobody was; its pages must be reachable. */
  lemma AddKeeps(s: State, s': State, k: nat, memStart: nat, memSize: nat)
    requires Intact(s) && RegionJoined(s, s', k, memStart, memSize) && s.pool.spans[k] == (0, 0)
    requires s.base == KERNEL_BASE ==> LinearFrames(s.mem, s.tree.root, s.image, RegionFrames(memStart, memSize))
    ensures Intact(s') && Onward(s, s') && SameWalks(s.mem, s'.mem, s.tree.root)
  {
    hide HeapOk, TreeOk, Unrestricted, Ledger, SpansKept, Linear, LinearFrames;
    var first, pages := FirstFrame(memStart), WholePages(memStart, memSize);
    var own := Run(first, BitmapPages(pages));
    BitmapFits(pages);
    assert own <= Run(first, pages);
    assert Owns(s.chain, s.live, s.pool) by { HeapOwns(s); }
    OffMetadata(s.pool, s.chain, s.live, s.tree, s.held);
    NewSpanKept(s.pool, k, first, pages);
    StructuresStay(s, s'.mem, s'.pool, own);
    RestGrows(s.chain, s.live, s.pool, s'.pool, own);
    LedgerStays(s.pool, s'.pool, s.held, s.runs, s.pinned, {});
    assert s.held + {} == s.held && s.pinned + {} == s.pinned;
    LinearKept(s, s', RegionFrames(memStart, memSize));
  }

  /** A region without pages in use, its own bitmap apart, can go. */
  lemma RemoveKeeps(s: State, s': State, k: nat, memStart: nat)
    requires Intact(s) && RegionGone(s, s', k, memStart) && s.pool.spans[k] == SpanOf(s.regions[k])
    requires Run(s.regions[k].first, |s.regions[k].flags|) * s.pool.used <= s.pool.bitmaps
    ensures Intact(s') && Onward(s, s') && SameWalks(s.mem, s'.mem, s.tree.root)
  {
    hide HeapOk, TreeOk, Unrestricted, Ledger, SpansKept, Linear, LinearFrames;
    var r := s.regions[k];
    assert Owns(s.chain, s.live, s.pool) by { HeapOwns(s); }
    OffMetadata(s.pool, s.chain, s.live, s.tree, s.held);
    assert SpansKept(s.pool, s'.pool) by { OldSpanKept(s.pool, k, r); }
    StructuresStay(s, s.mem, s'.pool, {});
    RestShrinks(s.chain, s.live, s.pool, s'.pool, Run(r.first, |r.flags|));
    LedgerStays(s.pool, s'.pool, s.held, s.runs, s.pinned, {});
    assert s.held + {} == s.held && s.pinned + {} == s.pinned;
    NoFrames(s.mem, s.tree.root, s.image);
    LinearKept(s, s', {});
  }

  lemma OldSpanKept(p: Pool, k: nat, r: Region)
    requires k < |p.spans| && r.Region? && p.spans[k] == SpanOf(r) && Run(r.first, |r.flags|) * p.used <= p.bitmaps
    ensures SpansKept(p, WithoutRegion(p, k, r))
  {
    var p' := WithoutRegion(p, k, r);
    forall f: nat, n: nat | n > 0 && p.Within(f, n) && f in p.used && f !in p.bitmaps
      ensures p'.Within(f, n)
    {
      var j: nat :| j < |p.spans| && p.spans[j].0 <= f && f + n <= p.spans[j].0 + p.spans[j].1;
      assert f !in Run(r.first, |r.flags|) * p.used;
      assert p'.spans[j] == p.spans[j];
    }
  }

  /** Writing where no page is managed harms nobody. */
  lemma UnmanagedKeeps(s: State, s': State, changed: set<nat>)
    requires Intact(s) && s' == s.(mem := s'.mem) && SameOutside(s.mem, s'.mem, changed) && changed !! s.pool.managed
    ensures Intact(s') && Onward(s, s') && SameWalks(s.mem, s'.mem, s.tree.root)
  {
    hide HeapOk, TreeOk, Unrestricted, Ledger, SpansKept, Linear, LinearFrames;
    assert Owns(s.chain, s.live, s.pool) by { HeapOwns(s); }
    OffMetadata(s.pool, s.chain, s.live, s.tree, s.held);
    SameSpans(s.pool, s.pool);
    StructuresStay(s, s'.mem, s.pool, changed);
    NoFrames(s.mem, s.tree.root, s.image);
    LinearKept(s, s', {});
  }

  /** What a refused region at address zero had cleared is not managed. */
  lemma RefusedUnmanaged(rs: seq<Region>, p: Pool, memSize: nat)
    requires Consistent(rs, p) && RegionClear(rs, 0, memSize)
    ensures Run(0, BitmapPages(WholePages(0, memSize))) !! p.managed
  {
    var pages := WholePages(0, memSize);
    if pages > 0 {
      UsableApart(rs, 0, memSize);
      UnheldUnmanaged(rs, p, NewRegion(0, pages));
      BitmapRun(0, pages);
    }
  }

  lemma RejectKeeps(s: State, s': State, memStart: nat, memSize: nat)
    requires Intact(s) && RegionRejected(s, s', memStart, memSize) && Consistent(s.regions, s.pool)
             && RegionClear(s.regions, memStart, memSize)
    ensures Intact(s') && Onward(s, s') && SameWalks(s.mem, s'.mem, s.tree.root)
    ensures SameOutside(s.mem, s'.mem, if memStart == 0 then Run(0, BitmapPages(WholePages(0, memSize))) else {})
    ensures (if memStart == 0 then Run(0, BitmapPages(WholePages(0, memSize))) else {}) !! s.pool.managed
  {
    hide Intact;
    if memStart == 0 {
      RefusedUnmanaged(s.regions, s.pool, memSize);
      UnmanagedKeeps(s, s', Run(0, BitmapPages(WholePages(0, memSize))));
    } else {
      UnmanagedKeeps(s, s', {});
    }
  }

  /** A client writing to a page of its own, or to its block, harms nobody. */
  lemma WriteKeeps(s: State, s': State, f: nat, j: nat, w: Word)
    requires Intact(s) && WordWritten(s, s', f, j, w)
    requires f in s.held || exists i: nat :: i < |s.live| && f in s.live[i].Frames()
    ensures Intact(s') && Onward(s, s') && SameWalks(s.mem, s'.mem, s.tree.root) && f !in s.pool.bitmaps
  {
    hide HeapOk, TreeOk, Unrestricted, Ledger, SpansKept, Linear, LinearFrames;
    assert Owns(s.chain, s.live, s.pool) by { HeapOwns(s); }
    OffMetadata(s.pool, s.chain, s.live, s.tree, s.held);
    SameSpans(s.pool, s.pool);
    StructuresStay(s, s'.mem, s.pool, {f});
    NoFrames(s.mem, s.tree.root, s.image);
    LinearKept(s, s', {});
  }

  /** The heap moves only pages of its own and free ones. */
  lemma HeapKeeps(s: State, s': State, written: seq<nat>)
    requires Intact(s) && HeapOnly(s, s') && HeapOk(s'.mem, s.base, s'.head, s'.first, s'.chain, s'.live, s'.pool)
    requires s'.pool.bitmaps <= s'.pool.used <= s'.pool.managed <= s.pool.managed
    requires Rest(s'.pool, s'.chain, s'.live) == Rest(s.pool, s.chain, s.live)
    requires s'.pool.bitmaps == s.pool.bitmaps && s'.pool.spans == s.pool.spans
    requires SameOutside(s.mem, s'.mem, s.pool.bitmaps + Members(written))
             && (written == s.chain || written == s'.chain)
    ensures Intact(s') && Onward(s, s') && SameWalks(s.mem, s'.mem, s.tree.root)
  {
    hide HeapOk, TreeOk, Unrestricted, Ledger, SpansKept, Linear, LinearFrames;
    assert s.tree.Tables() !! Members(written) by {
      assert forall f :: f in s.chain ==> InHeap(s.chain, s.live, f);
      assert forall f :: f in s'.chain ==> InHeap(s'.chain, s'.live, f);
    }
    SameTables(s.mem, s'.mem, s.tree, s.pool.bitmaps + Members(written));
    TreeElsewhere(s.mem, s'.mem, s.tree, s.pool.bitmaps + Members(written));
    WalksElsewhere(s.mem, s'.mem, s.tree, s.pool.bitmaps + Members(written));
    SameSpans(s.pool, s'.pool);
    LedgerStays(s.pool, s'.pool, s.held, s.runs, s.pinned, {});
    assert s.held + {} == s.held && s.pinned + {} == s.pinned;
    NoFrames(s.mem, s.tree.root, s.image);
    LinearKept(s, s', {});
  }

  /** New tables are built in pages that were free. */
  lemma TablesKeep(s: State, s': State)
    requires System(s) && TablesOnly(s, s') && Built(s.mem, s.tree, s.pool, s'.mem, s'.tree, s'.pool)
    ensures System(s') && Onward(s, s') && s'.pool.managed == s.pool.managed
  {
    hide TreeOk, Ledger, SpansKept, HeapStored, Owns, AtMostOneEmpty, Unrestricted;
    var added := s'.tree.Tables() - s.tree.Tables();
    assert Owns(s.chain, s.live, s.pool) by { HeapOwns(s); }
    OffMetadata(s.pool, s.chain, s.live, s.tree, s.held);
    SameSpans(s.pool, s'.pool);
    assert added !! s.pool.used;
    HeapStillOwns(s.chain, s.live, s.pool, s'.pool);
    assert Members(s.chain) !! s.pool.bitmaps + s'.tree.Tables();
    HeapElsewhere(s.mem, s'.mem, s.base, s.head, s.first, s.chain, s.live, LiveSlots(s.live),
                  s.pool.bitmaps + s'.tree.Tables());
    RestGrows(s.chain, s.live, s.pool, s'.pool, added);
    LedgerStays(s.pool, s'.pool, s.held, s.runs, s.pinned, {});
    assert s.held + {} == s.held && s.pinned + {} == s.pinned;
  }

  /** A mapping off the allocator's linear pages leaves every kernel pointer where it led. */
  lemma MapKeeps(s: State, s': State, va: nat, pa: nat, perms: Permissions, memType: MemType, ok: bool)
    requires Intact(s) && MapTried(s, s', va, pa, perms, memType, ok) && OffLinear(s, va)
    ensures Intact(s') && Onward(s, s')
    ensures !ok ==> SameWalks(s.mem, s'.mem, s.tree.root)
  {
    hide System, Linear, Mapped, Built, Onward, OffLinear, SameWalks;
    MapSystem(s, s', va, pa, perms, memType, ok);
    MapLinear(s, s', va, pa, perms, memType, ok);
  }

  lemma MapLinear(s: State, s': State, va: nat, pa: nat, perms: Permissions, memType: MemType, ok: bool)
    requires Linear(s) && MapTried(s, s', va, pa, perms, memType, ok) && OffLinear(s, va)
    requires s'.pool.managed == s.pool.managed && s'.tree.root == s.tree.root
    ensures Linear(s')
  {
    hide Mapped, LinearAt, SamePage, Built, SameWalks;
    if s.base == KERNEL_BASE {
      forall f | f in s.pool.managed
        ensures LinearAt(s'.mem, s.tree.root, s.image, f * PAGE_SIZE)
      {
        if ok {
          OtherMapKeepsLinear(s.mem, s.tree, s.pool, s'.mem, s'.tree, s'.pool, s.image, va, pa, perms, memType,
                              f * PAGE_SIZE);
        } else {
          SameWalkLinear(s.mem, s'.mem, s.tree.root, s.image, f * PAGE_SIZE);
        }
      }
    }
  }

  lemma SameWalkLinear(mem: Mem, mem': Mem, root: nat, image: Image, pa: nat)
    requires SameWalks(mem, mem', root) && LinearAt(mem, root, image, pa)
    ensures LinearAt(mem', root, image, pa)
  {
    hide Leads, Unrestrictive, WalkFrom;
    assert Walk(mem', root, KERNEL_BASE + pa) == Walk(mem, root, KERNEL_BASE + pa);
  }

  /** Owners are undisturbed wherever the mapping goes. */
  lemma MapSystem(s: State, s': State, va: nat, pa: nat, perms: Permissions, memType: MemType, ok: bool)
    requires System(s) && MapTried(s, s', va, pa, perms, memType, ok)
    ensures System(s') && Onward(s, s') && s'.pool.managed == s.pool.managed && s'.tree.root == s.tree.root
  {
    hide System, TreeOk, TreeSafe, Unrestricted;
    assert Built(s.mem, s.tree, s.pool, s'.mem, s'.tree, s'.pool);
    TablesKeep(s, s');
  }

  /** Chunks that did not move span what they spanned. */
  lemma SpansFromChunks(mem: Mem, mem': Mem, base: nat, chunks: seq<Chunk>, rs: seq<Region>, p: Pool, rs': seq<Region>,
                        p': Pool)
    requires Inv(mem, base, chunks, rs, p) && Inv(mem', base, chunks, rs', p')
    ensures p'.spans == p.spans && p'.bitmaps <= p'.used <= p'.managed && p'.managed == p.managed
  {
    assert |p.spans| == |p'.spans|;
    forall k: nat | k < |p.spans|
      ensures p'.spans[k] == p.spans[k]
    {
      KnownChunk(mem, base, chunks, rs, p, k);
      KnownChunk(mem', base, chunks, rs', p', k);
      assert p.spans[k] == SpanOf(rs[k]) && p'.spans[k] == SpanOf(rs'[k]);
    }
  }
}
