/** What the page allocator's data means.

  Three views are tied together: the bitmaps in memory, one `Region` of "page is
  used" flags per chunk (`Stored`), and the sets of frames those flags stand for
  (`Tracks`). */
module PhysicalPages {
  import opened Memory
  import opened FirstFit

  const MAX_MEM_CHUNKS: nat := 10
  const PHYS_ADDR_NULL: nat := 0

  /** `memory_chunk_t` */
  datatype Chunk = Chunk(bitmap: nat, totalPages: nat, memBase: nat, initialized: bool)

  /** A live chunk: its first frame, the pages its own bitmap takes, and one flag per page. */
  datatype Region = Absent | Region(first: nat, bitmapPages: nat, flags: seq<bool>) {
    predicate Holds(f: nat) { Region? && first <= f < first + |flags| }

    predicate HoldsBitmap(f: nat) { Region? && first <= f < first + bitmapPages }

    predicate Used(f: nat)
      requires Holds(f)
    {
      flags[f - first]
    }

    function Mark(start: nat, n: nat, v: bool): Region
      requires Region? && start + n <= |flags|
    {
      this.(flags := Marked(flags, start, n, v))
    }
  }

  /** Bytes of the bitmap of a chunk, and the pages they need. */
  function BitmapBytes(totalPages: nat): nat {
    (totalPages + 7) / 8
  }

  function BitmapPages(totalPages: nat): nat {
    NumPages(BitmapBytes(totalPages))
  }

  /** The bitmap fits in the pages reserved for it, and those lie in the chunk. */
  lemma BitmapFits(totalPages: nat)
    requires totalPages > 0
    ensures BitmapPages(totalPages) == ((totalPages + 7) / 8 + 4095) / 4096
    ensures 0 < BitmapPages(totalPages) <= totalPages
    ensures totalPages <= BitmapPages(totalPages) * BITS_PER_FRAME
  {
  }

  /** The bitmap in memory holds exactly the region's flags. */
  ghost predicate BitsStored(mem: Mem, first: nat, flags: seq<bool>)
    requires first + |flags| <= |mem|
  {
    forall i: nat :: i < |flags| ==> Bit(mem, first, i) == flags[i]
  }

  ghost predicate ChunkStored(mem: Mem, base: nat, c: Chunk, r: Region) {
    if !c.initialized then r.Absent? else
      && r.Region? && |r.flags| == c.totalPages > 0
      && c.memBase == r.first * PAGE_SIZE && r.first > 0
      && c.bitmap == PaToVa(base, c.memBase)
      && r.bitmapPages == BitmapPages(c.totalPages)
      && r.first + |r.flags| <= |mem|
      && BitsStored(mem, r.first, r.flags)
  }

  ghost predicate Stored(mem: Mem, base: nat, chunks: seq<Chunk>, regions: seq<Region>) {
    && |chunks| == |regions| == 10
    && forall k: nat :: k < |chunks| ==> ChunkStored(mem, base, chunks[k], regions[k])
  }

  /** The frames the allocator manages, those marked used, those holding bitmaps, and
    first frame and length of each live chunk. */
  datatype Pool = Pool(managed: set<nat>, used: set<nat>, bitmaps: set<nat>, spans: seq<(nat, nat)>) {
    function Free(): set<nat> { managed - used }

    /** The `n` frames from `f` on lie in one chunk. */
    ghost predicate Within(f: nat, n: nat) {
      exists k: nat :: k < |spans| && spans[k].0 <= f && f + n <= spans[k].0 + spans[k].1
    }
  }

  function SpanOf(r: Region): (nat, nat) {
    if r.Region? then (r.first, |r.flags|) else (0, 0)
  }

  ghost predicate SpansMatch(regions: seq<Region>, spans: seq<(nat, nat)>) {
    |regions| == |spans| && forall k: nat :: k < |regions| ==> spans[k] == SpanOf(regions[k])
  }

  ghost predicate Apart(r: Region, s: Region) {
    r.Region? && s.Region? ==>
      r.first + |r.flags| <= s.first || s.first + |s.flags| <= r.first
  }

  ghost predicate AllApart(regions: seq<Region>) {
    forall k: nat, l: nat :: k < |regions| && l < |regions| && k != l ==> Apart(regions[k], regions[l])
  }

  ghost predicate Held(regions: seq<Region>, f: nat) {
    exists k: nat :: k < |regions| && regions[k].Holds(f)
  }

  ghost predicate TracksRegion(r: Region, p: Pool) {
    forall f: nat {:trigger f in p.managed} {:trigger f in p.used} {:trigger f in p.bitmaps} ::
      r.Holds(f) ==>
        && f in p.managed
        && (f in p.used <==> r.Used(f))
        && (f in p.bitmaps <==> r.HoldsBitmap(f))
  }

  ghost predicate Tracks(regions: seq<Region>, p: Pool) {
    && (forall k: nat :: k < |regions| ==> TracksRegion(regions[k], p))
    && (forall f: nat :: f in p.managed ==> Held(regions, f))
    && p.bitmaps <= p.used <= p.managed
    && SpansMatch(regions, p.spans)
  }

  ghost predicate BitmapsInside(regions: seq<Region>) {
    forall k: nat :: k < |regions| && regions[k].Region? ==> regions[k].bitmapPages <= |regions[k].flags|
  }

  /** Regions are disjoint, hold their own bitmap, and never offer it. */
  ghost predicate Consistent(regions: seq<Region>, p: Pool) {
    && AllApart(regions)
    && BitmapsInside(regions)
    && Tracks(regions, p)
  }

  function Moved(used: set<nat>, run: set<nat>, v: bool): set<nat> {
    if v then used + run else used - run
  }

  lemma RemarkSelf(r: Region, p: Pool, start: nat, n: nat, v: bool)
    requires r.Region? && TracksRegion(r, p) && start + n <= |r.flags|
    ensures TracksRegion(r.Mark(start, n, v), p.(used := Moved(p.used, Run(r.first + start, n), v)))
    ensures Run(r.first + start, n) <= p.managed
    ensures p.bitmaps <= p.used <= p.managed && (v || start >= r.bitmapPages) ==>
              p.bitmaps <= Moved(p.used, Run(r.first + start, n), v) <= p.managed
  {
    forall f | f in Run(r.first + start, n)
      ensures f in p.managed && (start >= r.bitmapPages ==> f !in p.bitmaps)
    {
      assert r.Holds(f);
    }
  }

  lemma RemarkOther(r: Region, s: Region, p: Pool, start: nat, n: nat, v: bool)
    requires r.Region? && Apart(r, s) && start + n <= |r.flags|
    requires TracksRegion(s, p)
    ensures TracksRegion(s, p.(used := Moved(p.used, Run(r.first + start, n), v)))
  {
  }

  /** Flags play no part in which frames a region holds. */
  lemma RemarkGeometry(regions: seq<Region>, k: nat, start: nat, n: nat, v: bool)
    requires k < |regions| && regions[k].Region? && start + n <= |regions[k].flags|
    ensures var regions' := regions[k := regions[k].Mark(start, n, v)];
            && (AllApart(regions) ==> AllApart(regions'))
            && (forall spans :: SpansMatch(regions, spans) ==> SpansMatch(regions', spans))
            && forall f: nat :: Held(regions, f) ==> Held(regions', f)
  {
    var regions' := regions[k := regions[k].Mark(start, n, v)];
    forall f: nat | Held(regions, f)
      ensures Held(regions', f)
    {
      var l: nat :| l < |regions| && regions[l].Holds(f);
      assert regions'[l].Holds(f);
    }
  }

  /** Marking a run of one chunk moves exactly that run in or out of `used`. */
  lemma Remark(regions: seq<Region>, p: Pool, k: nat, start: nat, n: nat, v: bool)
    requires Consistent(regions, p)
    requires k < |regions| && regions[k].Region? && start + n <= |regions[k].flags|
    requires v || start >= regions[k].bitmapPages
    ensures var run := Run(regions[k].first + start, n);
            && Consistent(regions[k := regions[k].Mark(start, n, v)], p.(used := Moved(p.used, run, v)))
            && run <= p.managed
  {
    var r, run := regions[k], Run(regions[k].first + start, n);
    var regions', p' := regions[k := r.Mark(start, n, v)], p.(used := Moved(p.used, run, v));
    RemarkGeometry(regions, k, start, n, v);
    RemarkSelf(r, p, start, n, v);
    forall l: nat | l < |regions|
      ensures TracksRegion(regions'[l], p')
    {
      if l != k {
        RemarkOther(r, regions[l], p, start, n, v);
      }
    }
  }

  /** Bits `start .. start + n` of the bitmap in frames `b .. b + bp` become `v`;
    no other bit of memory changes. */
  ghost predicate BitsChanged(mem: Mem, mem': Mem, b: nat, bp: nat, start: nat, n: nat, v: bool) {
    && b + bp <= |mem| && SameOutside(mem, mem', Run(b, bp))
    && forall i: nat :: i < bp * BITS_PER_FRAME ==>
                     Bit(mem', b, i) == if start <= i < start + n then v else Bit(mem, b, i)
  }

  /** The bytes of a new bitmap were cleared and its own pages marked; the rest of its last page is as it was. */
  ghost predicate BitmapMade(mem: Mem, mem': Mem, first: nat, pages: nat) {
    && first + BitmapPages(pages) <= |mem| == |mem'|
    && forall j: nat :: j < BitmapPages(pages) * BITS_PER_FRAME ==>
                     Bit(mem', first, j) ==
                     if j < 8 * BitmapBytes(pages) then j < BitmapPages(pages) else Bit(mem, first, j)
  }

  /** A bitmap bit depends on one frame only. */
  lemma BitFrame(mem: Mem, mem': Mem, b: nat, i: nat)
    requires |mem| == |mem'| && b + i / BITS_PER_FRAME < |mem|
    requires mem[b + i / BITS_PER_FRAME] == mem'[b + i / BITS_PER_FRAME]
    ensures Bit(mem, b, i) == Bit(mem', b, i)
  {
  }

  /** Flags stay as they were when none of the bitmap's frames changes. */
  lemma BitsElsewhere(mem: Mem, mem': Mem, first: nat, flags: seq<bool>, changed: set<nat>)
    requires |flags| > 0 && first + |flags| <= |mem| && BitsStored(mem, first, flags)
    requires SameOutside(mem, mem', changed)
    requires Run(first, BitmapPages(|flags|)) !! changed
    ensures BitsStored(mem', first, flags)
  {
    forall i: nat | i < |flags|
      ensures Bit(mem', first, i) == flags[i]
    {
      BitmapFits(|flags|);
      var f := first + i / BITS_PER_FRAME;
      assert f in Run(first, BitmapPages(|flags|));
      BitFrame(mem, mem', first, i);
    }
  }

  lemma ChunkElsewhere(mem: Mem, mem': Mem, base: nat, c: Chunk, r: Region, changed: set<nat>)
    requires ChunkStored(mem, base, c, r) && SameOutside(mem, mem', changed)
    requires r.Region? ==> Run(r.first, r.bitmapPages) !! changed
    ensures ChunkStored(mem', base, c, r)
  {
    if r.Region? {
      BitsElsewhere(mem, mem', r.first, r.flags, changed);
    }
  }

  lemma BitsMarked(mem: Mem, mem': Mem, first: nat, flags: seq<bool>, start: nat, n: nat, v: bool)
    requires |flags| > 0 && first + |flags| <= |mem| && BitsStored(mem, first, flags) && start + n <= |flags|
    requires BitsChanged(mem, mem', first, BitmapPages(|flags|), start, n, v)
    ensures BitsStored(mem', first, Marked(flags, start, n, v))
  {
    BitmapFits(|flags|);
  }

  /** Marking bits in one chunk's bitmap marks its flags and no others. */
  lemma RemarkStored(mem: Mem, mem': Mem, base: nat, chunks: seq<Chunk>, regions: seq<Region>, k: nat,
                     start: nat, n: nat, v: bool)
    requires Stored(mem, base, chunks, regions) && AllApart(regions)
    requires k < |chunks| && regions[k].Region? && start + n <= |regions[k].flags|
    requires BitsChanged(mem, mem', regions[k].first, regions[k].bitmapPages, start, n, v)
    ensures Stored(mem', base, chunks, regions[k := regions[k].Mark(start, n, v)])
  {
    var r := regions[k];
    BitsMarked(mem, mem', r.first, r.flags, start, n, v);
    forall l: nat | l < |chunks| && l != k
      ensures ChunkStored(mem', base, chunks[l], regions[l])
    {
      if regions[l].Region? {
        BitmapsApart(r, regions[l]);
      }
      ChunkElsewhere(mem, mem', base, chunks[l], regions[l], Run(r.first, r.bitmapPages));
    }
  }

  /** Representation invariant of the allocator. */
  ghost predicate Inv(mem: Mem, base: nat, chunks: seq<Chunk>, regions: seq<Region>, p: Pool) {
    Stored(mem, base, chunks, regions) && Consistent(regions, p)
  }

  /** The whole effect of setting or clearing a run of pages of one chunk: its bits, its
    flags, its frames, and nothing else. */
  ghost predicate RunMarked(regions: seq<Region>, p: Pool, mem: Mem, regions': seq<Region>, p': Pool, mem': Mem,
                            k: nat, start: nat, n: nat, v: bool)
  {
    && k < |regions| && regions[k].Region? && start + n <= |regions[k].flags|
    && regions' == regions[k := regions[k].Mark(start, n, v)]
    && p' == p.(used := Moved(p.used, Run(regions[k].first + start, n), v))
    && Run(regions[k].first + start, n) <= p.managed
    && BitsChanged(mem, mem', regions[k].first, regions[k].bitmapPages, start, n, v)
    && SameOutside(mem, mem', p.bitmaps)
  }

  lemma MarkKeepsInv(mem: Mem, mem': Mem, base: nat, chunks: seq<Chunk>, regions: seq<Region>, p: Pool, k: nat,
                     start: nat, n: nat, v: bool)
    returns (regions': seq<Region>, p': Pool)
    requires Inv(mem, base, chunks, regions, p)
    requires k < |chunks| && regions[k].Region? && start + n <= |regions[k].flags|
    requires v || start >= regions[k].bitmapPages
    requires BitsChanged(mem, mem', regions[k].first, regions[k].bitmapPages, start, n, v)
    ensures Inv(mem', base, chunks, regions', p')
    ensures RunMarked(regions, p, mem, regions', p', mem', k, start, n, v)
  {
    RemarkStored(mem, mem', base, chunks, regions, k, start, n, v);
    Remark(regions, p, k, start, n, v);
    BitmapInPool(regions, p, k);
    regions' := regions[k := regions[k].Mark(start, n, v)];
    p' := p.(used := Moved(p.used, Run(regions[k].first + start, n), v));
  }

  /** Memory that holds no bitmap is none of the allocator's business. */
  lemma WriteKeepsInv(mem: Mem, mem': Mem, base: nat, chunks: seq<Chunk>, rs: seq<Region>, p: Pool, changed: set<nat>)
    requires Inv(mem, base, chunks, rs, p)
    requires SameOutside(mem, mem', changed) && changed !! p.bitmaps
    ensures Inv(mem', base, chunks, rs, p)
  {
    forall k: nat | k < |chunks|
      ensures ChunkStored(mem', base, chunks[k], rs[k])
    {
      assert ChunkStored(mem, base, chunks[k], rs[k]);
      if rs[k].Region? {
        BitmapInPool(rs, p, k);
      }
      ChunkElsewhere(mem, mem', base, chunks[k], rs[k], changed);
    }
  }

  /** A fresh chunk: only the bitmap's own pages are used. */
  function NewRegion(first: nat, totalPages: nat): (r: Region)
    ensures r.Region? && |r.flags| == totalPages
  {
    Region(first, BitmapPages(totalPages), seq(totalPages, i => i < BitmapPages(totalPages)))
  }

  function WithRegion(p: Pool, k: nat, first: nat, totalPages: nat): Pool
    requires k < |p.spans|
  {
    var own := Run(first, BitmapPages(totalPages));
    Pool(p.managed + Run(first, totalPages), p.used + own, p.bitmaps + own, p.spans[k := (first, totalPages)])
  }

  function WithoutRegion(p: Pool, k: nat, r: Region): Pool
    requires k < |p.spans| && r.Region?
  {
    var frames := Run(r.first, |r.flags|);
    Pool(p.managed - frames, p.used - frames, p.bitmaps - frames, p.spans[k := (0, 0)])
  }

  ghost predicate ApartFromAll(rs: seq<Region>, r: Region) {
    forall l: nat :: l < |rs| ==> Apart(r, rs[l])
  }

  lemma AddTracksNew(p: Pool, k: nat, first: nat, totalPages: nat)
    requires k < |p.spans| && totalPages > 0
    requires Run(first, totalPages) !! p.used && Run(first, totalPages) !! p.bitmaps
    ensures TracksRegion(NewRegion(first, totalPages), WithRegion(p, k, first, totalPages))
    ensures NewRegion(first, totalPages).bitmapPages <= totalPages
  {
    BitmapFits(totalPages);
  }

  lemma AddTracksOld(s: Region, p: Pool, k: nat, first: nat, totalPages: nat)
    requires k < |p.spans| && totalPages > 0
    requires TracksRegion(s, p) && Apart(NewRegion(first, totalPages), s)
    ensures TracksRegion(s, WithRegion(p, k, first, totalPages))
  {
    BitmapFits(totalPages);
    forall f: nat | s.Holds(f)
      ensures f !in Run(first, totalPages) && f !in Run(first, BitmapPages(totalPages))
    {
    }
  }

  lemma UnheldUnmanaged(rs: seq<Region>, p: Pool, r: Region)
    requires Tracks(rs, p) && r.Region? && ApartFromAll(rs, r)
    ensures Run(r.first, |r.flags|) !! p.managed
  {
    forall f | f in p.managed
      ensures f !in Run(r.first, |r.flags|)
    {
      var l: nat :| l < |rs| && rs[l].Holds(f);
      assert Apart(r, rs[l]);
    }
  }

  /** Registering a region that overlaps no live chunk. */
  lemma AddConsistent(rs: seq<Region>, p: Pool, k: nat, first: nat, totalPages: nat)
    requires Consistent(rs, p) && k < |rs| && rs[k].Absent? && totalPages > 0
    requires ApartFromAll(rs, NewRegion(first, totalPages))
    ensures Consistent(rs[k := NewRegion(first, totalPages)], WithRegion(p, k, first, totalPages))
  {
    var r, p' := NewRegion(first, totalPages), WithRegion(p, k, first, totalPages);
    var rs' := rs[k := r];
    UnheldUnmanaged(rs, p, r);
    BitmapFits(totalPages);
    AddTracksNew(p, k, first, totalPages);
    forall l: nat | l < |rs|
      ensures TracksRegion(rs'[l], p')
    {
      if l != k {
        assert Apart(r, rs[l]);
        AddTracksOld(rs[l], p, k, first, totalPages);
      }
    }
    forall f: nat | f in p'.managed
      ensures Held(rs', f)
    {
      if f in p.managed {
        var l: nat :| l < |rs| && rs[l].Holds(f);
        assert rs'[l].Holds(f);
      } else {
        assert rs'[k].Holds(f);
      }
    }
    assert p'.bitmaps <= p'.used <= p'.managed by { BitmapRun(first, totalPages); }
    forall i: nat, j: nat | i < |rs| && j < |rs| && i != j
      ensures Apart(rs'[i], rs'[j])
    {
      assert Apart(r, rs[i]) && Apart(r, rs[j]);
    }
  }

  lemma BitmapRun(first: nat, totalPages: nat)
    requires totalPages > 0
    ensures Run(first, BitmapPages(totalPages)) <= Run(first, totalPages)
  {
    BitmapFits(totalPages);
  }

  lemma AddStored(mem: Mem, mem': Mem, base: nat, chunks: seq<Chunk>, rs: seq<Region>, k: nat, c: Chunk, first: nat)
    requires Stored(mem, base, chunks, rs) && k < |rs|
    requires c.totalPages > 0 && ApartFromAll(rs, NewRegion(first, c.totalPages))
    requires ChunkStored(mem', base, c, NewRegion(first, c.totalPages))
    requires SameOutside(mem, mem', Run(first, BitmapPages(c.totalPages)))
    ensures Stored(mem', base, chunks[k := c], rs[k := NewRegion(first, c.totalPages)])
  {
    forall l: nat | l < |chunks| && l != k
      ensures ChunkStored(mem', base, chunks[l], rs[l])
    {
      assert ChunkStored(mem, base, chunks[l], rs[l]);
      assert Apart(NewRegion(first, c.totalPages), rs[l]);
      if rs[l].Region? {
        BitmapsApart(NewRegion(first, c.totalPages), rs[l]);
      }
      ChunkElsewhere(mem, mem', base, chunks[l], rs[l], Run(first, BitmapPages(c.totalPages)));
    }
  }

  lemma RemoveTracks(s: Region, p: Pool, k: nat, r: Region)
    requires k < |p.spans| && r.Region? && TracksRegion(s, p) && Apart(r, s)
    ensures TracksRegion(s, WithoutRegion(p, k, r))
  {
  }

  /** Dropping a chunk. */
  lemma RemoveConsistent(rs: seq<Region>, p: Pool, k: nat)
    requires Consistent(rs, p) && k < |rs| && rs[k].Region?
    ensures Consistent(rs[k := Absent], WithoutRegion(p, k, rs[k]))
  {
    var r, rs', p' := rs[k], rs[k := Absent], WithoutRegion(p, k, rs[k]);
    forall l: nat | l < |rs|
      ensures TracksRegion(rs'[l], p')
    {
      if l != k {
        assert Apart(r, rs[l]);
        RemoveTracks(rs[l], p, k, r);
      }
    }
    forall f: nat | f in p'.managed
      ensures Held(rs', f)
    {
      var l: nat :| l < |rs| && rs[l].Holds(f);
      assert f !in Run(r.first, |r.flags|);
      assert rs'[l].Holds(f);
    }
  }

  lemma BitmapInPool(regions: seq<Region>, p: Pool, k: nat)
    requires Consistent(regions, p) && k < |regions| && regions[k].Region?
    ensures Run(regions[k].first, regions[k].bitmapPages) <= p.bitmaps
  {
    assert TracksRegion(regions[k], p);
    forall f | f in Run(regions[k].first, regions[k].bitmapPages)
      ensures f in p.bitmaps
    {
      assert regions[k].Holds(f);
      assert f in p.managed || f !in p.managed;
    }
  }

  lemma BitmapsApart(r: Region, s: Region)
    requires r.Region? && s.Region? && Apart(r, s)
    requires |r.flags| > 0 && |s.flags| > 0
    requires r.bitmapPages == BitmapPages(|r.flags|) && s.bitmapPages == BitmapPages(|s.flags|)
    ensures Run(r.first, r.bitmapPages) !! Run(s.first, s.bitmapPages)
  {
    BitmapFits(|r.flags|);
    BitmapFits(|s.flags|);
  }
}
