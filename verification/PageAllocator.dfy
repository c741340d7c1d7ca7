/** page_allocator.c: bitmap allocation of physical pages over up to ten chunks. */
module PageAllocation {
  import opened Bits
  import opened Memory
  import opened FirstFit
  import opened PhysicalPages

  function EmptyPool(): Pool {
    Pool({}, {}, {}, seq(MAX_MEM_CHUNKS, _ => (0, 0)))
  }

  /** `[start, end)` of the linked kernel image, as physical addresses. */
  datatype Image = Image(start: nat, end: nat) {
    predicate Overlaps(start': nat, end': nat) { start < end' && start' < end }
  }

  /** Chunk `k` is the first with a run of `n` free pages, and `s` its lowest such run. */
  ghost predicate FirstFitAt(regions: seq<Region>, n: nat, k: nat, s: nat) {
    && k < |regions| && regions[k].Region? && LowestRun(regions[k].flags, n, s)
    && forall j: nat :: j < k && regions[j].Region? ==> !HasRun(regions[j].flags, n)
  }

  ghost predicate NoFit(regions: seq<Region>, n: nat) {
    forall k: nat :: k < |regions| && regions[k].Region? ==> !HasRun(regions[k].flags, n)
  }

  /** The effect of `page_alloc`: the first fit is marked used, and nothing else. */
  ghost predicate PagesTaken(rs: seq<Region>, p: Pool, mem: Mem, rs': seq<Region>, p': Pool, mem': Mem, n: nat, pa: nat)
  {
    exists k: nat, s: nat ::
      && FirstFitAt(rs, n, k, s)
      && pa == (rs[k].first + s) * PAGE_SIZE
      && RunMarked(rs, p, mem, rs', p', mem', k, s, n, true)
  }

  /** First fit, flags alone: the lowest run in the first fitting chunk, at `pa`, is marked. */
  ghost predicate FitMarked(rs: seq<Region>, rs': seq<Region>, n: nat, pa: nat) {
    exists k: nat, s: nat ::
      FirstFitAt(rs, n, k, s) && pa == (rs[k].first + s) * PAGE_SIZE && rs' == rs[k := rs[k].Mark(s, n, true)]
  }

  lemma TakenFit(rs: seq<Region>, p: Pool, mem: Mem, rs': seq<Region>, p': Pool, mem': Mem, n: nat, pa: nat)
    requires PagesTaken(rs, p, mem, rs', p', mem', n, pa)
    ensures FitMarked(rs, rs', n, pa)
  {
  }

  /** The same, frame by frame. */
  ghost predicate FramesTaken(p: Pool, mem: Mem, p': Pool, mem': Mem, n: nat, pa: nat) {
    && pa > 0 && pa % PAGE_SIZE == 0 && pa / PAGE_SIZE + n <= |mem|
    && Run(pa / PAGE_SIZE, n) <= p.Free()
    && p.Within(pa / PAGE_SIZE, n)
    && p' == p.(used := p.used + Run(pa / PAGE_SIZE, n))
    && SameOutside(mem, mem', p.bitmaps)
  }

  ghost predicate FramesReturned(p: Pool, mem: Mem, p': Pool, mem': Mem, f: nat, n: nat) {
    && p' == p.(used := p.used - Run(f, n))
    && SameOutside(mem, mem', p.bitmaps)
  }

  /** The effect of `page_free` on the chunk holding frame `f`. */
  ghost predicate PagesReturned(rs: seq<Region>, p: Pool, mem: Mem, rs': seq<Region>, p': Pool, mem': Mem, f: nat,
                                n: nat)
  {
    exists k: nat ::
      && k < |rs| && rs[k].Holds(f)
      && var left := rs[k].first + |rs[k].flags| - f;
         RunMarked(rs, p, mem, rs', p', mem', k, f - rs[k].first, if n < left then n else left, false)
  }

  ghost predicate PagesReserved(rs: seq<Region>, p: Pool, mem: Mem, rs': seq<Region>, p': Pool, mem': Mem, f: nat,
                                n: nat)
  {
    exists k: nat :: k < |rs| && rs[k].Holds(f) && RunMarked(rs, p, mem, rs', p', mem', k, f - rs[k].first, n, true)
  }

  /** `reserve_page` accepts a range that starts in the region and does not leave it. */
  ghost predicate ReserveFits(r: Region, start: nat, n: nat) {
    r.Holds(start / PAGE_SIZE) && start + n * PAGE_SIZE <= (r.first + |r.flags|) * PAGE_SIZE
  }

  lemma OnlyOneFits(rs: seq<Region>, p: Pool, k: nat, start: nat, n: nat)
    requires Consistent(rs, p) && k < |rs| && rs[k].Holds(start / PAGE_SIZE)
    ensures (exists j: nat :: j < |rs| && ReserveFits(rs[j], start, n)) <==> ReserveFits(rs[k], start, n)
  {
    forall j: nat | j < |rs| && ReserveFits(rs[j], start, n)
      ensures j == k
    {
      assert Apart(rs[j], rs[k]) || j == k;
    }
  }

  lemma NotHeldNotWithin(rs: seq<Region>, p: Pool, f: nat, n: nat)
    requires Consistent(rs, p) && !Held(rs, f)
    ensures n > 0 ==> !p.Within(f, n)
  {
    forall k: nat | k < |p.spans| && n > 0
      ensures !(p.spans[k].0 <= f && f + n <= p.spans[k].0 + p.spans[k].1)
    {
      assert p.spans[k] == SpanOf(rs[k]);
      assert !rs[k].Holds(f);
    }
  }

  lemma WithinChunk(rs: seq<Region>, p: Pool, k: nat, f: nat, n: nat)
    requires Consistent(rs, p) && k < |rs| && rs[k].Holds(f)
    ensures n > 0 && p.Within(f, n) ==> f + n <= rs[k].first + |rs[k].flags|
  {
    if n > 0 && p.Within(f, n) {
      var l: nat :| l < |p.spans| && p.spans[l].0 <= f && f + n <= p.spans[l].0 + p.spans[l].1;
      assert p.spans[l] == SpanOf(rs[l]);
      assert Apart(rs[l], rs[k]) || l == k;
    }
  }

  lemma FreedClearOfBitmap(rs: seq<Region>, p: Pool, k: nat, f: nat, n: nat)
    requires Consistent(rs, p) && k < |rs| && rs[k].Holds(f) && (n > 0 ==> f !in p.bitmaps)
    ensures n > 0 ==> f - rs[k].first >= rs[k].bitmapPages
  {
    assert TracksRegion(rs[k], p);
    assert f in p.managed;
  }

  lemma ReturnedFrames(rs: seq<Region>, p: Pool, mem: Mem, rs': seq<Region>, p': Pool, mem': Mem, f: nat, n: nat)
    requires Consistent(rs, p) && PagesReturned(rs, p, mem, rs', p', mem', f, n)
    ensures n > 0 && p.Within(f, n) ==> FramesReturned(p, mem, p', mem', f, n)
  {
    var k: nat :|
      && k < |rs| && rs[k].Holds(f)
      && var left := rs[k].first + |rs[k].flags| - f;
         RunMarked(rs, p, mem, rs', p', mem', k, f - rs[k].first, if n < left then n else left, false);
    WithinChunk(rs, p, k, f, n);
  }

  // ---- registering and removing regions

  /** `(pa + PAGE_SIZE - 1) & ~(PAGE_SIZE - 1)` */
  function AlignUp(pa: nat): (r: nat)
    ensures r % PAGE_SIZE == 0 && pa <= r < pa + PAGE_SIZE
  {
    (pa + PAGE_SIZE - 1) / PAGE_SIZE * PAGE_SIZE
  }

  /** First frame and whole pages of a region once its start is aligned. */
  function FirstFrame(memStart: nat): nat {
    AlignUp(memStart) / PAGE_SIZE
  }

  function WholePages(memStart: nat, memSize: nat): nat {
    if AlignUp(memStart) < memStart + memSize then (memStart + memSize - AlignUp(memStart)) / PAGE_SIZE else 0
  }

  /** The chunk of a region holds exactly the pages that lie wholly in the region. */
  lemma PagesOfRegion(memStart: nat, memSize: nat, f: nat)
    ensures f in Run(FirstFrame(memStart), WholePages(memStart, memSize)) <==>
            memStart <= f * 0x1000 && (f + 1) * 0x1000 <= memStart + memSize
  {
  }

  /** A region is accepted exactly when, above address zero, it has a whole page and its
    bitmap is clear of the kernel image (if that is checked). */
  ghost predicate RegionUsable(memStart: nat, memSize: nat, check: bool, image: Image) {
    var start, pages := AlignUp(memStart), WholePages(memStart, memSize);
    && pages > 0 && start > 0
    && !(check && image.Overlaps(start, start + BitmapPages(pages) * PAGE_SIZE))
  }

  /** In plain terms: some page lies wholly in the region, the first such page is not page 0, and none of the pages that
    the bitmap takes from there on shares a byte with the image. */
  lemma UsableIff(memStart: nat, memSize: nat, check: bool, image: Image)
    requires image.start < image.end
    ensures RegionUsable(memStart, memSize, check, image) <==>
            var first, pages := FirstFrame(memStart), WholePages(memStart, memSize);
            && (exists f: nat :: f in Run(first, pages)) && first > 0
            && (check ==>
                  forall a: nat :: image.start <= a < image.end ==> a / 0x1000 !in Run(first, BitmapPages(pages)))
  {
    var first, pages := FirstFrame(memStart), WholePages(memStart, memSize);
    assert AlignUp(memStart) == first * 0x1000;
    assert pages > 0 ==> first in Run(first, pages);
    hide FirstFrame, WholePages, AlignUp, BitmapPages;
    var start, end := first * 0x1000, (first + BitmapPages(pages)) * 0x1000;
    if pages > 0 && image.Overlaps(start, end) {
      BitmapFits(pages);
      var a := if image.start < start then start else image.start;
      assert a / 0x1000 in Run(first, BitmapPages(pages));
    }
  }

  /** The region shares no byte with a live chunk and is not one already. */
  ghost predicate RegionClear(rs: seq<Region>, memStart: nat, memSize: nat) {
    forall k: nat :: k < |rs| && rs[k].Region? ==>
                  && rs[k].first * PAGE_SIZE != memStart
                  && (memStart + memSize <= rs[k].first * PAGE_SIZE
                      || (rs[k].first + |rs[k].flags|) * PAGE_SIZE <= memStart)
  }

  ghost predicate RegionAdded(rs: seq<Region>, p: Pool, mem: Mem, rs': seq<Region>, p': Pool, mem': Mem,
                              k: nat, memStart: nat, memSize: nat)
  {
    var first, pages := FirstFrame(memStart), WholePages(memStart, memSize);
    && k < |rs| == |p.spans| && rs[k].Absent? && pages > 0 && first > 0
    && rs' == rs[k := NewRegion(first, pages)]
    && p' == WithRegion(p, k, first, pages)
    && Run(first, pages) !! p.managed
    && first + pages <= |mem|
    && SameOutside(mem, mem', Run(first, BitmapPages(pages))) && BitmapMade(mem, mem', first, pages)
  }

  /** Nothing is registered; only a bitmap wrongly placed at address zero may have been cleared. */
  ghost predicate RegionRefused(rs: seq<Region>, p: Pool, mem: Mem, rs': seq<Region>, p': Pool, mem': Mem,
                                memStart: nat, memSize: nat)
  {
    && rs' == rs && p' == p
    && SameOutside(mem, mem', if memStart == 0 then Run(0, BitmapPages(WholePages(0, memSize))) else {})
  }

  lemma RefusedKeepsInv(mem: Mem, mem': Mem, base: nat, chunks: seq<Chunk>, rs: seq<Region>, p: Pool,
                        k: nat, c: Chunk, memStart: nat, memSize: nat)
    requires Inv(mem, base, chunks, rs, p) && k < |chunks| && !chunks[k].initialized && !c.initialized
    requires RegionClear(rs, memStart, memSize)
    requires var pages := WholePages(memStart, memSize);
             && (AlignUp(memStart) == 0 || pages == 0)
             && SameOutside(mem, mem', Run(FirstFrame(memStart), BitmapPages(pages)))
    ensures Inv(mem', base, chunks[k := c], rs, p)
    ensures RegionRefused(rs, p, mem, rs, p, mem', memStart, memSize)
  {
    var pages := WholePages(memStart, memSize);
    var changed := Run(FirstFrame(memStart), BitmapPages(pages));
    if pages > 0 {
      UsableApart(rs, memStart, memSize);
      UnheldUnmanaged(rs, p, NewRegion(0, pages));
      BitmapRun(0, pages);
    } else {
      assert changed == {};
    }
    WriteKeepsInv(mem, mem', base, chunks, rs, p, changed);
    IdleChunk(mem', base, chunks, rs, p, k, c);
  }

  ghost predicate RegionRemoved(rs: seq<Region>, p: Pool, rs': seq<Region>, p': Pool, k: nat, memStart: nat) {
    && k < |rs| == |p.spans| && rs[k].Region? && rs[k].first * PAGE_SIZE == memStart
    && rs' == rs[k := Absent] && p' == WithoutRegion(p, k, rs[k])
  }

  lemma UsableFits(memStart: nat, memSize: nat, frames: nat)
    requires memStart + memSize <= frames * PAGE_SIZE
    requires AlignUp(memStart) < memStart + memSize
    ensures var pages := WholePages(memStart, memSize);
            && FirstFrame(memStart) + pages <= frames
            && FirstFrame(memStart) * PAGE_SIZE == AlignUp(memStart)
            && pages == (memSize - (AlignUp(memStart) - memStart)) / PAGE_SIZE
            && BitmapPages(pages) <= pages
            && NumPages((pages + 7) / 8) == BitmapPages(pages)
  {
  }

  lemma UsableApart(rs: seq<Region>, memStart: nat, memSize: nat)
    requires RegionClear(rs, memStart, memSize)
    ensures ApartFromAll(rs, NewRegion(FirstFrame(memStart), WholePages(memStart, memSize)))
  {
  }

  lemma IdleChunk(mem: Mem, base: nat, chunks: seq<Chunk>, rs: seq<Region>, p: Pool, k: nat, c: Chunk)
    requires Inv(mem, base, chunks, rs, p) && k < |chunks| && !chunks[k].initialized && !c.initialized
    ensures Inv(mem, base, chunks[k := c], rs, p)
  {
  }

  lemma RemoveStored(mem: Mem, base: nat, chunks: seq<Chunk>, rs: seq<Region>, k: nat, c: Chunk)
    requires Stored(mem, base, chunks, rs) && k < |chunks| && !c.initialized
    ensures Stored(mem, base, chunks[k := c], rs[k := Absent])
  {
  }

  lemma ClearAddress(base: nat, bitmap: nat, first: nat, i: nat, n: nat, frames: nat)
    requires base == 0 || base == KERNEL_BASE
    requires bitmap == PaToVa(base, first * PAGE_SIZE) && i < n
    requires first + NumPages(n) <= frames <= MAX_FRAMES
    ensures VaToPa(base, bitmap + i) == first * PAGE_SIZE + i
    ensures (first * PAGE_SIZE + i) / PAGE_SIZE == first + i / PAGE_SIZE < first + NumPages(n)
  {
  }

  lemma ByteCleared(mem: Mem, mem': Mem, first: nat, i: nat)
    requires (first * PAGE_SIZE + i) / PAGE_SIZE < |mem|
    requires mem' == WithByte(mem, first * PAGE_SIZE + i, 0)
    ensures SameOutside(mem, mem', {first + i / PAGE_SIZE})
    ensures forall j: nat :: first + j / BITS_PER_FRAME < |mem| ==>
                          Bit(mem', first, j) == if j / 8 == i then false else Bit(mem, first, j)
  {
    forall j: nat | first + j / BITS_PER_FRAME < |mem|
      ensures Bit(mem', first, j) == if j / 8 == i then false else Bit(mem, first, j)
    {
      ZeroByte(mem, first, i, j);
    }
  }

  /** The first `i` of `n` bytes of a bitmap are zero, and the rest of its pages is as it was. */
  ghost predicate ClearedUpTo(mem0: Mem, mem: Mem, first: nat, n: nat, i: nat) {
    && first + NumPages(n) <= |mem| && i <= n && SameOutside(mem0, mem, Run(first, NumPages(n)))
    && forall j: nat :: j < NumPages(n) * BITS_PER_FRAME ==>
                     Bit(mem, first, j) == (j >= 8 * i && Bit(mem0, first, j))
  }

  lemma ClearedMore(mem0: Mem, mem: Mem, mem': Mem, first: nat, n: nat, i: nat)
    requires ClearedUpTo(mem0, mem, first, n, i) && i < n && SameOutside(mem, mem', {first + i / PAGE_SIZE})
    requires forall j: nat :: first + j / BITS_PER_FRAME < |mem| ==>
                           Bit(mem', first, j) == if j / 8 == i then false else Bit(mem, first, j)
    ensures ClearedUpTo(mem0, mem', first, n, i + 1)
  {
    hide Bit;
    assert i / PAGE_SIZE < NumPages(n);
    forall j: nat | j < NumPages(n) * BITS_PER_FRAME
      ensures Bit(mem', first, j) == (j >= 8 * (i + 1) && Bit(mem0, first, j))
    {
      assert j / BITS_PER_FRAME < NumPages(n);
      assert j < 8 * (i + 1) <==> j < 8 * i || j / 8 == i;
    }
  }

  lemma InitKeepsInv(mem0: Mem, mem1: Mem, mem2: Mem, base: nat, chunks: seq<Chunk>, rs: seq<Region>, p: Pool,
                     k: nat, c: Chunk, first: nat, memStart: nat, memSize: nat)
    returns (rs': seq<Region>, p': Pool)
    requires Inv(mem0, base, chunks, rs, p) && k < |chunks| && !chunks[k].initialized
    requires memStart + memSize <= |mem0| * PAGE_SIZE && RegionClear(rs, memStart, memSize)
    requires first == FirstFrame(memStart) > 0 && c.totalPages == WholePages(memStart, memSize) > 0
    requires c.initialized && c.memBase == first * PAGE_SIZE && c.bitmap == PaToVa(base, c.memBase)
    requires ClearedUpTo(mem0, mem1, first, BitmapBytes(c.totalPages), BitmapBytes(c.totalPages))
    requires first + c.totalPages <= |mem0|
    requires BitsChanged(mem1, mem2, first, BitmapPages(c.totalPages), 0, BitmapPages(c.totalPages), true)
    ensures Inv(mem2, base, chunks[k := c], rs', p')
    ensures RegionAdded(rs, p, mem0, rs', p', mem2, k, memStart, memSize)
  {
    var r := NewRegion(first, c.totalPages);
    assert rs[k].Absent? by { KnownChunk(mem0, base, chunks, rs, p, k); }
    BitmapFits(c.totalPages);
    UsableApart(rs, memStart, memSize);
    assert BitsStored(mem2, first, r.flags);
    AddStored(mem0, mem2, base, chunks, rs, k, c, first);
    AddConsistent(rs, p, k, first, c.totalPages);
    UnheldUnmanaged(rs, p, r);
    rs', p' := rs[k := r], WithRegion(p, k, first, c.totalPages);
  }

  lemma FixedUp(mem: Mem, c: Chunk, r: Region)
    requires |mem| <= MAX_FRAMES && ChunkStored(mem, 0, c, r)
    ensures ChunkStored(mem, KERNEL_BASE, if c.initialized then c.(bitmap := PaToVa(KERNEL_BASE, c.bitmap)) else c, r)
  {
  }

  lemma BitmapsAtBase(mem: Mem, chunks: seq<Chunk>, rs: seq<Region>)
    requires |mem| <= MAX_FRAMES && Stored(mem, KERNEL_BASE, chunks, rs)
    ensures forall k: nat :: k < |chunks| && chunks[k].initialized ==>
                          VaToPa(KERNEL_BASE, chunks[k].bitmap) == chunks[k].memBase
  {
    forall k: nat | k < |chunks| && chunks[k].initialized
      ensures VaToPa(KERNEL_BASE, chunks[k].bitmap) == chunks[k].memBase
    {
      assert ChunkStored(mem, KERNEL_BASE, chunks[k], rs[k]);
      LinearMap(KERNEL_BASE, chunks[k].memBase);
    }
  }

  lemma NothingMarked(rs: seq<Region>, p: Pool, mem: Mem, k: nat, start: nat)
    requires k < |rs| && rs[k].Region? && start <= |rs[k].flags|
    requires rs[k].first + rs[k].bitmapPages <= |mem|
    ensures RunMarked(rs, p, mem, rs, p, mem, k, start, 0, false)
  {
    assert Marked(rs[k].flags, start, 0, false) == rs[k].flags;
    assert Run(rs[k].first + start, 0) == {};
    assert Moved(p.used, {}, false) == p.used;
  }

  lemma TakenFrames(rs: seq<Region>, p: Pool, mem: Mem, base: nat, chunks: seq<Chunk>,
                    rs': seq<Region>, p': Pool, mem': Mem, n: nat, pa: nat)
    requires Inv(mem, base, chunks, rs, p)
    requires PagesTaken(rs, p, mem, rs', p', mem', n, pa)
    ensures FramesTaken(p, mem, p', mem', n, pa)
  {
    var k: nat, s: nat :|
      && FirstFitAt(rs, n, k, s)
      && pa == (rs[k].first + s) * PAGE_SIZE
      && RunMarked(rs, p, mem, rs', p', mem', k, s, n, true);
    KnownChunk(mem, base, chunks, rs, p, k);
    var f := rs[k].first + s;
    assert pa / PAGE_SIZE == f;
    assert SpanOf(rs[k]) == p.spans[k];
    forall g | g in Run(f, n)
      ensures g in p.Free()
    {
      assert TracksRegion(rs[k], p) && rs[k].Holds(g);
      assert !rs[k].flags[g - rs[k].first];
    }
  }

  /** Setting a run of clear bits and clearing it again restores memory bit for bit. */
  lemma BitsRestored(m0: Mem, m1: Mem, m2: Mem, b: nat, bp: nat, start: nat, n: nat)
    requires BitsChanged(m0, m1, b, bp, start, n, true) && BitsChanged(m1, m2, b, bp, start, n, false)
    requires forall i: nat :: start <= i < start + n && i < bp * BITS_PER_FRAME ==> !Bit(m0, b, i)
    ensures m2 == m0
  {
    forall f: nat | f < |m0|
      ensures m2[f] == m0[f]
    {
      if f in Run(b, bp) {
        SameFrame(m0, m2, b, f - b);
      }
    }
  }

  /** One more bit written. */
  lemma BitsStep(m0: Mem, m1: Mem, b: nat, bp: nat, start: nat, n: nat, v: bool)
    requires BitsChanged(m0, m1, b, bp, start, n, v)
    requires start + n < bp * BITS_PER_FRAME
    ensures BitsChanged(m0, WithBit(m1, b, start + n, v), b, bp, start, n + 1, v)
  {
    var m2 := WithBit(m1, b, start + n, v);
    forall i: nat | i < bp * BITS_PER_FRAME
      ensures Bit(m2, b, i) == if i == start + n then v else Bit(m1, b, i)
    {
      BitAfterBit(m1, b, start + n, v, i);
    }
    WithBitFrame(m1, b, start + n, v);
  }

  lemma BitsNone(mem: Mem, b: nat, bp: nat, start: nat, v: bool)
    requires b + bp <= |mem|
    ensures BitsChanged(mem, mem, b, bp, start, 0, v)
  {
  }

  lemma WithBitFrame(mem: Mem, b: nat, i: nat, v: bool)
    requires b + i / BITS_PER_FRAME < |mem|
    ensures SameOutside(mem, WithBit(mem, b, i, v), {b + i / BITS_PER_FRAME})
  {
  }

  lemma SameFrame(mem: Mem, mem': Mem, b: nat, k: nat)
    requires |mem| == |mem'| && b + k < |mem|
    requires forall i: nat :: i / BITS_PER_FRAME == k ==> Bit(mem, b, i) == Bit(mem', b, i)
    ensures mem[b + k] == mem'[b + k]
  {
    var x, y := mem[b + k], mem'[b + k];
    forall j: nat | j < BITS_PER_FRAME
      ensures FrameBit(x, j) == FrameBit(y, j)
    {
      var i := k * BITS_PER_FRAME + j;
      assert i / BITS_PER_FRAME == k && i % BITS_PER_FRAME == j;
      assert Bit(mem, b, i) == Bit(mem', b, i);
    }
    FrameBitsEqual(x, y);
  }

  class PageAllocator {
    const m: Machine
    var chunks: seq<Chunk>
    ghost var regions: seq<Region>
    ghost var pool: Pool

    ghost predicate Valid()
      reads this, m
    {
      m.Valid() && Inv(m.mem, m.kernelBase, chunks, regions, pool)
    }

    constructor (m: Machine)
      requires m.Valid()
      ensures Valid() && this.m == m && pool == EmptyPool()
    {
      this.m := m;
      chunks := seq(MAX_MEM_CHUNKS, _ => Chunk(0, 0, 0, false));
      regions := seq(MAX_MEM_CHUNKS, _ => Absent);
      pool := EmptyPool();
    }

    /** `bitmap[i / 8] & (1 << (i % 8))` */
    method TestBit(k: nat, i: nat) returns (used: bool)
      requires Valid() && k < |chunks| && chunks[k].initialized && i < chunks[k].totalPages
      ensures used == regions[k].flags[i]
    {
      var c := chunks[k];
      assert ChunkStored(m.mem, m.kernelBase, c, regions[k]);
      BitmapByte(c.memBase, c.bitmap, m.kernelBase, regions[k].first, i, |m.mem|);
      BitAddress(m.mem, regions[k].first, i, true);
      var byte := m.LoadByte(c.bitmap + i / 8);
      used := Field(byte, i % 8, 1) == 1;
    }

    /** Sets or clears the bits of pages `start .. start + n`, one at a time. */
    method StoreBits(c: Chunk, ghost first: nat, start: nat, n: nat, v: bool)
      requires m.Valid()
      requires c.memBase == first * PAGE_SIZE && c.bitmap == PaToVa(m.kernelBase, c.memBase)
      requires 0 < c.totalPages && first + c.totalPages <= |m.mem| && start + n <= c.totalPages
      modifies m`mem
      ensures m.Valid()
      ensures BitsChanged(old(m.mem), m.mem, first, BitmapPages(c.totalPages), start, n, v)
    {
      BitmapFits(c.totalPages);
      hide BitsChanged, WithBit;
      ghost var mem0, bp := m.mem, BitmapPages(c.totalPages);
      BitsNone(mem0, first, bp, start, v);
      var i := 0;
      while i < n
        invariant i <= n && |m.mem| == |mem0|
        invariant BitsChanged(mem0, m.mem, first, bp, start, i, v)
      {
        BitsStep(mem0, m.mem, first, bp, start, i, v);
        StoreBit(c, first, start + i, v);
        i := i + 1;
      }
    }

    /** A word stored outside the bitmaps, by whoever holds the frame. */
    method StoreWord(va: nat, w: Word, ghost f: nat, ghost j: nat)
      requires Valid() && f < |m.mem| && j < 512 && f !in pool.bitmaps
      requires VaToPa(m.kernelBase, va) == f * PAGE_SIZE + 8 * j
      modifies m`mem
      ensures Valid()
      ensures m.mem == old(m.mem)[f := old(m.mem)[f][j := w]]
    {
      ghost var mem0 := m.mem;
      m.StoreWord(va, w, f, j);
      WriteKeepsInv(mem0, m.mem, m.kernelBase, chunks, regions, pool, {f});
    }

    /** A page cleared outside the bitmaps. */
    method ZeroPage(va: nat, ghost f: nat)
      requires Valid() && f < |m.mem| && f !in pool.bitmaps
      requires va == m.kernelBase + f * PAGE_SIZE
      modifies m`mem
      ensures Valid()
      ensures m.mem == old(m.mem)[f := ZeroFrame()]
    {
      ghost var mem0 := m.mem;
      m.ZeroPage(va, f);
      WriteKeepsInv(mem0, m.mem, m.kernelBase, chunks, regions, pool, {f});
    }

    /** find_chunk_for_address */
    method FindChunkForAddress(addr: nat) returns (k: int)
      requires Valid()
      ensures -1 <= k < |chunks| == |regions|
      ensures k >= 0 ==> chunks[k].initialized && regions[k].Holds(addr / PAGE_SIZE)
      ensures k == -1 ==> !Held(regions, addr / PAGE_SIZE)
    {
      var i := 0;
      while i < MAX_MEM_CHUNKS
        invariant i <= MAX_MEM_CHUNKS
        invariant forall j: nat :: j < i ==> !regions[j].Holds(addr / PAGE_SIZE)
      {
        KnownChunk(m.mem, m.kernelBase, chunks, regions, pool, i);
        if chunks[i].initialized {
          var start := chunks[i].memBase;
          var end := start + chunks[i].totalPages * PAGE_SIZE;
          if start <= addr && addr < end {
            return i;
          }
        }
        i := i + 1;
      }
      return -1;
    }

    /** find_chunk_with_free_pages */
    method FindChunkWithFreePages(n: nat) returns (k: int)
      requires Valid()
      ensures -1 <= k < |chunks| == |regions|
      ensures k == -1 <==> n == 0 || NoFit(regions, n)
      ensures k >= 0 ==> chunks[k].initialized && regions[k].Region? && HasRun(regions[k].flags, n)
      ensures forall j: nat :: j < k && regions[j].Region? ==> !HasRun(regions[j].flags, n)
    {
      var i := 0;
      while i < MAX_MEM_CHUNKS
        invariant i <= MAX_MEM_CHUNKS
        invariant n > 0 ==> forall j: nat :: j < i && regions[j].Region? ==> !HasRun(regions[j].flags, n)
      {
        KnownChunk(m.mem, m.kernelBase, chunks, regions, pool, i);
        if chunks[i].initialized {
          var fits := ScanForRun(i, n);
          if fits {
            return i;
          }
        }
        i := i + 1;
      }
      return -1;
    }

    /** The inner scan of find_chunk_with_free_pages. */
    method ScanForRun(k: nat, n: nat) returns (fits: bool)
      requires Valid() && k < |chunks| && chunks[k].initialized && regions[k].Region?
      ensures fits <==> n > 0 && HasRun(regions[k].flags, n)
    {
      ghost var flags := regions[k].flags;
      KnownChunk(m.mem, m.kernelBase, chunks, regions, pool, k);
      var found := 0;
      var j := 0;
      while j < chunks[k].totalPages
        invariant j <= chunks[k].totalPages
        invariant n > 0 ==> Scanned(flags, n, j, found)
      {
        var isUsed := TestBit(k, j);
        if n > 0 {
          ScanStep(flags, n, j, found);
        }
        if !isUsed {
          found := found + 1;
          if found == n {
            return true;
          }
        } else {
          found := 0;
        }
        j := j + 1;
      }
      if n > 0 {
        ScanDone(flags, n, found);
      }
      return false;
    }

    /** page_alloc_chunk */
    method PageAllocChunk(n: nat, k: nat) returns (pa: nat, ghost s: nat)
      requires Valid() && k < |chunks| && chunks[k].initialized && regions[k].Region?
      modifies m`mem, `regions, `pool
      ensures Valid()
      ensures pa == 0 <==> n == 0 || !HasRun(old(regions[k]).flags, n)
      ensures pa == 0 ==> m.mem == old(m.mem) && regions == old(regions) && pool == old(pool)
      ensures pa != 0 ==>
                && LowestRun(old(regions[k]).flags, n, s)
                && pa == (old(regions[k]).first + s) * PAGE_SIZE
                && RunMarked(old(regions), old(pool), old(m.mem), regions, pool, m.mem, k, s, n, true)
    {
      s := 0;
      if n == 0 {
        return PHYS_ADDR_NULL, 0;
      }
      KnownChunk(m.mem, m.kernelBase, chunks, regions, pool, k);
      if n > chunks[k].totalPages {
        return PHYS_ADDR_NULL, 0;
      }
      var startIndex := FindStart(k, n);
      if startIndex == -1 {
        return PHYS_ADDR_NULL, 0;
      }
      MarkPages(k, startIndex, n, true);
      return chunks[k].memBase + startIndex * PAGE_SIZE, startIndex;
    }

    /** The scan of page_alloc_chunk: start of the lowest run, or -1. */
    method FindStart(k: nat, n: nat) returns (start: int)
      requires Valid() && k < |chunks| && chunks[k].initialized && regions[k].Region? && n > 0
      ensures -1 <= start && (start == -1 <==> !HasRun(regions[k].flags, n))
      ensures start >= 0 ==> LowestRun(regions[k].flags, n, start)
    {
      KnownChunk(m.mem, m.kernelBase, chunks, regions, pool, k);
      hide Inv;
      ghost var flags := regions[k].flags;
      var found, startIndex := 0, 0;
      var i := 0;
      while i < chunks[k].totalPages
        invariant i <= chunks[k].totalPages
        invariant Scanned(flags, n, i, found)
        invariant found > 0 ==> startIndex == i - found
      {
        var isUsed := TestBit(k, i);
        ScanStep(flags, n, i, found);
        if !isUsed {
          if found == 0 {
            startIndex := i;
          }
          found := found + 1;
          if found == n {
            assert startIndex == i + 1 - n;
            return startIndex;
          }
        } else {
          found := 0;
        }
        i := i + 1;
      }
      ScanDone(flags, n, found);
      return -1;
    }

    /** page_alloc: the chunk found by the first scan is the one the second scan
      allocates from, so the result is the global first fit. */
    method PageAlloc(n: nat) returns (pa: nat)
      requires Valid()
      modifies m`mem, `regions, `pool
      ensures Valid()
      ensures pa == 0 <==> n == 0 || NoFit(old(regions), n)
      ensures pa == 0 ==> m.mem == old(m.mem) && regions == old(regions) && pool == old(pool)
      ensures pa != 0 ==>
                PagesTaken(old(regions), old(pool), old(m.mem), regions, pool, m.mem, n, pa)
      ensures pa != 0 ==> FramesTaken(old(pool), old(m.mem), pool, m.mem, n, pa)
    {
      ghost var rs, p, mem0 := regions, pool, m.mem;
      var k := FindChunkWithFreePages(n);
      if k == -1 {
        return PHYS_ADDR_NULL;
      }
      ghost var s: nat;
      pa, s := PageAllocChunk(n, k);
      assert FirstFitAt(rs, n, k, s);
      assert PagesTaken(rs, p, mem0, regions, pool, m.mem, n, pa);
      TakenFrames(rs, p, mem0, m.kernelBase, chunks, regions, pool, m.mem, n, pa);
    }

    /** page_free_chunk: pages past the end of the chunk are cut off. */
    method PageFreeChunk(start: nat, n: nat, k: nat)
      requires Valid() && k < |chunks| == |regions| && chunks[k].initialized
      requires regions[k].Holds(start / PAGE_SIZE)
      requires n > 0 ==> start / PAGE_SIZE - regions[k].first >= regions[k].bitmapPages
      modifies m`mem, `regions, `pool
      ensures Valid()
      ensures PagesReturned(old(regions), old(pool), old(m.mem), regions, pool, m.mem, start / PAGE_SIZE, n)
    {
      hide Inv, RunMarked;
      ghost var rs, p, mem0 := regions, pool, m.mem;
      KnownChunk(mem0, m.kernelBase, chunks, rs, p, k);
      var startIndex := (start - chunks[k].memBase) / PAGE_SIZE;
      assert startIndex == start / PAGE_SIZE - rs[k].first;
      var count := n;
      if startIndex + n > chunks[k].totalPages {
        count := chunks[k].totalPages - startIndex;
      }
      if count > 0 {
        MarkPages(k, startIndex, count, false);
      } else {
        NothingMarked(rs, p, mem0, k, startIndex);
        assert regions == rs && pool == p;
      }
      assert RunMarked(rs, p, mem0, regions, pool, m.mem, k, startIndex, count, false);
    }

    /** page_free */
    method PageFree(start: nat, n: nat)
      requires Valid()
      requires start + n * PAGE_SIZE < ADDRESS_SPACE
      requires n > 0 ==> start / PAGE_SIZE !in pool.bitmaps
      modifies m`mem, `regions, `pool
      ensures Valid()
      ensures !Held(old(regions), start / PAGE_SIZE) ==>
                m.mem == old(m.mem) && regions == old(regions) && pool == old(pool)
      ensures Held(old(regions), start / PAGE_SIZE) ==>
                PagesReturned(old(regions), old(pool), old(m.mem), regions, pool, m.mem, start / PAGE_SIZE, n)
      ensures old(pool).Within(start / PAGE_SIZE, n) && n > 0 ==>
                FramesReturned(old(pool), old(m.mem), pool, m.mem, start / PAGE_SIZE, n)
    {
      ghost var rs, p, mem0, f := regions, pool, m.mem, start / PAGE_SIZE;
      var k := FindChunkForAddress(start);
      if k == -1 {
        NotHeldNotWithin(rs, p, f, n);
        return;
      }
      KnownChunk(mem0, m.kernelBase, chunks, rs, p, k);
      FreedClearOfBitmap(rs, p, k, f, n);
      PageFreeChunk(start, n, k);
      ReturnedFrames(rs, p, mem0, regions, pool, m.mem, f, n);
    }

    /** reserve_page_chunk: refuses a range that leaves the chunk. */
    method ReservePageChunk(start: nat, n: nat, c: Chunk, ghost first: nat) returns (ok: bool)
      requires m.Valid()
      requires start + n * PAGE_SIZE < ADDRESS_SPACE
      requires c.memBase == first * PAGE_SIZE && c.bitmap == PaToVa(m.kernelBase, c.memBase)
      requires first + c.totalPages <= |m.mem|
      modifies m`mem
      ensures m.Valid()
      ensures ok <==> first > 0 && c.totalPages > 0
                      && first * PAGE_SIZE <= start && start + n * PAGE_SIZE <= (first + c.totalPages) * PAGE_SIZE
      ensures ok ==> start / PAGE_SIZE - first >= 0 && start / PAGE_SIZE - first + n <= c.totalPages
      ensures ok ==> BitsChanged(old(m.mem), m.mem, first, BitmapPages(c.totalPages), start / PAGE_SIZE - first, n,
                                 true)
      ensures !ok ==> m.mem == old(m.mem)
    {
      LinearMap(m.kernelBase, c.memBase);
      if c.memBase == 0 || c.totalPages == 0 || c.bitmap == 0 {
        return false;
      }
      var endAddr := start + n * PAGE_SIZE;
      var memEnd := c.memBase + c.totalPages * PAGE_SIZE;
      if start < c.memBase || endAddr > memEnd {
        return false;
      }
      var startIndex := (start - c.memBase) / PAGE_SIZE;
      assert startIndex == start / PAGE_SIZE - first;
      StoreBits(c, first, startIndex, n, true);
      return true;
    }

    /** reserve_page */
    method ReservePage(start: nat, n: nat) returns (ok: bool)
      requires Valid()
      requires start + n * PAGE_SIZE < ADDRESS_SPACE
      modifies m`mem, `regions, `pool
      ensures Valid()
      ensures ok <==> exists k: nat :: k < |old(regions)| && ReserveFits(old(regions)[k], start, n)
      ensures !ok ==> m.mem == old(m.mem) && regions == old(regions) && pool == old(pool)
      ensures ok ==> PagesReserved(old(regions), old(pool), old(m.mem), regions, pool, m.mem, start / PAGE_SIZE, n)
      ensures ok ==> pool == old(pool).(used := old(pool).used + Run(start / PAGE_SIZE, n))
      ensures ok ==> Run(start / PAGE_SIZE, n) <= pool.managed
      ensures SameOutside(old(m.mem), m.mem, pool.bitmaps)
    {
      hide BitsChanged, Consistent, Stored;
      ghost var rs, p, mem0 := regions, pool, m.mem;
      var k := FindChunkForAddress(start);
      if k == -1 {
        return false;
      }
      KnownChunk(mem0, m.kernelBase, chunks, rs, p, k);
      OnlyOneFits(rs, p, k, start, n);
      ok := ReservePageChunk(start, n, chunks[k], rs[k].first);
      assert ok <==> ReserveFits(rs[k], start, n);
      if ok {
        regions, pool := MarkKeepsInv(mem0, m.mem, m.kernelBase, chunks, rs, p, k, start / PAGE_SIZE - rs[k].first, n,
                                      true);
      }
    }

    /** Zeroes the first `n` bytes of a bitmap, clearing their bits. */
    method ClearBitmap(bitmap: nat, ghost first: nat, n: nat)
      requires m.Valid()
      requires bitmap == PaToVa(m.kernelBase, first * PAGE_SIZE)
      requires first + NumPages(n) <= |m.mem|
      modifies m`mem
      ensures m.Valid()
      ensures SameOutside(old(m.mem), m.mem, Run(first, NumPages(n)))
      ensures ClearedUpTo(old(m.mem), m.mem, first, n, n)
    {
      hide Bit, WithByte, VaToPa;
      ghost var mem0 := m.mem;
      var i := 0;
      while i < n
        invariant i <= n && m.Valid()
        invariant ClearedUpTo(mem0, m.mem, first, n, i)
      {
        ghost var before := m.mem;
        ClearAddress(m.kernelBase, bitmap, first, i, n, |m.mem|);
        m.StoreByte(bitmap + i, 0);
        ByteCleared(before, m.mem, first, i);
        ClearedMore(mem0, before, m.mem, first, n, i);
        i := i + 1;
      }
    }

    /** Second half of page_init_chunk: clear the bitmap, then reserve its own pages. */
    method InitBitmap(c: Chunk, ghost first: nat) returns (ok: bool, ghost mem1: Mem)
      requires m.Valid()
      requires c.memBase == first * PAGE_SIZE && c.bitmap == PaToVa(m.kernelBase, c.memBase)
      requires first + c.totalPages <= |m.mem|
      modifies m`mem
      ensures m.Valid()
      ensures ok <==> first > 0 && c.totalPages > 0
      ensures ClearedUpTo(old(m.mem), mem1, first, BitmapBytes(c.totalPages), BitmapBytes(c.totalPages))
      ensures ok ==> BitsChanged(mem1, m.mem, first, BitmapPages(c.totalPages), 0, BitmapPages(c.totalPages), true)
      ensures !ok ==> m.mem == mem1
    {
      var bitmapBytes := (c.totalPages + 7) / 8;
      var bitmapPages := NumPages(bitmapBytes);
      assert bitmapPages <= c.totalPages;
      ClearBitmap(c.bitmap, first, bitmapBytes);
      mem1 := m.mem;
      LinearMap(m.kernelBase, c.memBase);
      ok := ReservePageChunk(VaToPa(m.kernelBase, c.bitmap), bitmapPages, c, first);
    }

    /** page_init_chunk: aligns the region, puts the bitmap at its start and reserves it.
      A region at address zero is refused only after its bitmap was cleared. */
    method PageInitChunk(memStart: nat, memSize: nat, k: nat, check: bool, image: Image) returns (ok: bool)
      requires Valid() && k < |chunks| == |regions| == |pool.spans| && !chunks[k].initialized
      requires memStart + memSize <= |m.mem| * PAGE_SIZE && RegionClear(regions, memStart, memSize)
      modifies this, m`mem
      ensures Valid()
      ensures ok <==> RegionUsable(memStart, memSize, check, image)
      ensures !ok ==> RegionRefused(old(regions), old(pool), old(m.mem), regions, pool, m.mem, memStart, memSize)
      ensures ok ==> RegionAdded(old(regions), old(pool), old(m.mem), regions, pool, m.mem, k, memStart, memSize)
    {
      ghost var chunks0, rs, p, mem0 := chunks, regions, pool, m.mem;
      var c := chunks[k].(initialized := false);
      var alignedStart := AlignUp(memStart);
      var shift := alignedStart - memStart;
      if shift >= memSize {
        chunks := chunks[k := c];
        IdleChunk(mem0, m.kernelBase, chunks0, rs, p, k, c);
        return false;
      }
      var size := memSize - shift;
      c := c.(memBase := alignedStart);
      var totalPages := size / PAGE_SIZE;
      UsableFits(memStart, memSize, |m.mem|);
      if check && image.Overlaps(alignedStart, alignedStart + NumPages((totalPages + 7) / 8) * PAGE_SIZE) {
        chunks := chunks[k := c];
        IdleChunk(mem0, m.kernelBase, chunks0, rs, p, k, c);
        return false;
      }
      c := c.(bitmap := PaToVa(m.kernelBase, alignedStart), totalPages := totalPages);
      ghost var first := FirstFrame(memStart);
      ghost var mem1;
      ok, mem1 := InitBitmap(c, first);
      if !ok {
        chunks := chunks[k := c];
        RefusedKeepsInv(mem0, m.mem, m.kernelBase, chunks0, rs, p, k, c, memStart, memSize);
      } else {
        c := c.(initialized := true);
        chunks := chunks[k := c];
        regions, pool := InitKeepsInv(mem0, mem1, m.mem, m.kernelBase, chunks0, rs, p, k, c, first, memStart, memSize);
      }
    }

    /** page_allocator_add_region */
    method AddRegion(memStart: nat, memSize: nat, check: bool, image: Image) returns (ok: bool)
      requires Valid()
      requires memStart + memSize <= |m.mem| * PAGE_SIZE && RegionClear(regions, memStart, memSize)
      modifies this, m`mem
      ensures Valid()
      ensures ok <==>
              && RegionUsable(memStart, memSize, check, image)
              && exists k: nat :: k < |old(regions)| && old(regions)[k].Absent?
      ensures !ok ==> RegionRefused(old(regions), old(pool), old(m.mem), regions, pool, m.mem, memStart, memSize)
      ensures ok ==> exists k: nat ::
                  && RegionAdded(old(regions), old(pool), old(m.mem), regions, pool, m.mem, k, memStart, memSize)
                  && forall j: nat :: j < k ==> old(regions)[j].Region?
    {
      var i := 0;
      while i < MAX_MEM_CHUNKS
        invariant i <= MAX_MEM_CHUNKS
        invariant |regions| == 10
        invariant forall j: nat :: j < i ==> regions[j].Region?
        invariant Valid() && m.mem == old(m.mem) && regions == old(regions) && pool == old(pool)
                  && chunks == old(chunks)
      {
        KnownChunk(m.mem, m.kernelBase, chunks, regions, pool, i);
        if chunks[i].memBase == memStart || !chunks[i].initialized {
          ok := PageInitChunk(memStart, memSize, i, check, image);
          return;
        }
        i := i + 1;
      }
      return false;
    }

    /** page_allocator_remove_region */
    method RemoveRegion(memStart: nat) returns (ok: bool)
      requires Valid()
      modifies `chunks, `regions, `pool
      ensures Valid()
      ensures ok <==> exists k: nat ::
                        k < |old(regions)| && old(regions)[k].Region? && old(regions)[k].first * PAGE_SIZE == memStart
      ensures ok ==> exists k: nat :: RegionRemoved(old(regions), old(pool), regions, pool, k, memStart)
      ensures !ok ==> regions == old(regions) && pool == old(pool)
    {
      var i := 0;
      while i < MAX_MEM_CHUNKS
        invariant i <= MAX_MEM_CHUNKS
        invariant |regions| == 10
        invariant forall j: nat :: j < i ==> !(regions[j].Region? && regions[j].first * PAGE_SIZE == memStart)
        invariant Valid() && regions == old(regions) && pool == old(pool)
      {
        KnownChunk(m.mem, m.kernelBase, chunks, regions, pool, i);
        if chunks[i].initialized && chunks[i].memBase == memStart {
          ghost var chunks0, rs, p := chunks, regions, pool;
          chunks := chunks[i := chunks[i].(initialized := false)];
          regions, pool := rs[i := Absent], WithoutRegion(p, i, rs[i]);
          RemoveConsistent(rs, p, i);
          RemoveStored(m.mem, m.kernelBase, chunks0, rs, i, chunks[i]);
          assert RegionRemoved(rs, p, regions, pool, i, memStart);
          return true;
        }
        i := i + 1;
      }
      return false;
    }

    /** The allocator as it stands between the switch of the linear map and its fixup. */
    ghost predicate ValidBeforeFixup()
      reads this, m
    {
      m.Valid() && m.kernelBase == KERNEL_BASE && Inv(m.mem, 0, chunks, regions, pool)
    }

    /** fixup_page_allocator: turns the physical bitmap pointers into high addresses. */
    method FixupPageAllocator()
      requires ValidBeforeFixup()
      modifies `chunks
      ensures Valid()
      ensures forall k: nat :: k < |chunks| && chunks[k].initialized ==>
                            VaToPa(m.kernelBase, chunks[k].bitmap) == chunks[k].memBase
    {
      ghost var chunks0 := chunks;
      var i := 0;
      while i < MAX_MEM_CHUNKS
        invariant i <= MAX_MEM_CHUNKS && |chunks| == |chunks0|
        invariant forall j: nat :: j < i ==> ChunkStored(m.mem, KERNEL_BASE, chunks[j], regions[j])
        invariant forall j: nat :: i <= j < |chunks| ==> chunks[j] == chunks0[j]
      {
        KnownChunk(m.mem, 0, chunks0, regions, pool, i);
        FixedUp(m.mem, chunks0[i], regions[i]);
        if chunks[i].initialized {
          chunks := chunks[i := chunks[i].(bitmap := PaToVa(m.kernelBase, chunks[i].bitmap))];
        }
        i := i + 1;
      }
      BitmapsAtBase(m.mem, chunks, regions);
    }

    /** `bitmap[i / 8] |= (1 << (i % 8))`, or `&= ~(1 << (i % 8))` */
    method StoreBit(c: Chunk, ghost first: nat, i: nat, v: bool)
      requires m.Valid()
      requires c.memBase == first * PAGE_SIZE && c.bitmap == PaToVa(m.kernelBase, c.memBase)
      requires first + i / BITS_PER_FRAME < |m.mem|
      modifies m`mem
      ensures m.mem == WithBit(old(m.mem), first, i, v)
    {
      hide Bit, WithBit, ByteAt, WithByte, VaToPa, PaToVa, WithBitInByte, Field;
      BitmapByte(c.memBase, c.bitmap, m.kernelBase, first, i, |m.mem|);
      BitAddress(m.mem, first, i, v);
      var byte := m.LoadByte(c.bitmap + i / 8);
      m.StoreByte(c.bitmap + i / 8, WithBitInByte(byte, i % 8, v));
    }

    /** Marks a run of pages of chunk `k` used or free. */
    method MarkPages(k: nat, start: nat, n: nat, v: bool)
      requires Valid() && k < |chunks| && chunks[k].initialized
      requires start + n <= chunks[k].totalPages
      requires v || start >= regions[k].bitmapPages
      modifies m`mem, `regions, `pool
      ensures Valid()
      ensures RunMarked(old(regions), old(pool), old(m.mem), regions, pool, m.mem, k, start, n, v)
    {
      ghost var rs, p, mem0 := regions, pool, m.mem;
      KnownChunk(mem0, m.kernelBase, chunks, rs, p, k);
      StoreBits(chunks[k], rs[k].first, start, n, v);
      regions, pool := MarkKeepsInv(mem0, m.mem, m.kernelBase, chunks, rs, p, k, start, n, v);
    }
  }

  lemma KnownChunk(mem: Mem, base: nat, chunks: seq<Chunk>, regions: seq<Region>, p: Pool, k: nat)
    requires Inv(mem, base, chunks, regions, p) && k < |chunks|
    ensures |regions| == |chunks|
    ensures chunks[k].initialized == regions[k].Region?
    ensures chunks[k].initialized ==>
              && |regions[k].flags| == chunks[k].totalPages > 0
              && chunks[k].memBase == regions[k].first * PAGE_SIZE && regions[k].first > 0
              && chunks[k].bitmap == PaToVa(base, chunks[k].memBase)
              && regions[k].bitmapPages == BitmapPages(chunks[k].totalPages)
              && regions[k].first + |regions[k].flags| <= |mem|
  {
    assert ChunkStored(mem, base, chunks[k], regions[k]);
  }

  lemma KnownSpan(mem: Mem, base: nat, chunks: seq<Chunk>, rs: seq<Region>, p: Pool, k: nat)
    requires Inv(mem, base, chunks, rs, p) && k < |rs|
    ensures k < |p.spans| && p.spans[k] == SpanOf(rs[k])
  {
  }

  /** Where the pointer to a bitmap byte leads. */
  lemma BitmapByte(memBase: nat, bitmap: nat, base: nat, first: nat, i: nat, frames: nat)
    requires base == 0 || base == KERNEL_BASE
    requires memBase == first * PAGE_SIZE && bitmap == PaToVa(base, memBase)
    requires first + i / BITS_PER_FRAME < frames <= MAX_FRAMES
    ensures VaToPa(base, bitmap + i / 8) == first * PAGE_SIZE + i / 8
  {
  }
}
