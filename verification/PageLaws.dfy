/** What the page allocator promises across calls: first fit is deterministic, freeing
  undoes allocating bit for bit, and the status dump is a faithful run-length encoding. */
module PageLaws {
  import opened Memory
  import opened FirstFit
  import opened PhysicalPages
  import opened PageAllocation

  /** First fit picks one place only. */
  lemma FirstFitUnique(rs: seq<Region>, n: nat, k: nat, s: nat, k': nat, s': nat)
    requires FirstFitAt(rs, n, k, s) && FirstFitAt(rs, n, k', s')
    ensures k == k' && s == s'
  {
    assert FreeRun(rs[k].flags, s, n) && FreeRun(rs[k'].flags, s', n);
    assert HasRun(rs[k].flags, n) && HasRun(rs[k'].flags, n);
    LowestRunUnique(rs[k].flags, n, s, s');
  }

  /** Two allocations of the same size from the same state return the same address and leave
    the same flags. */
  lemma SameRequestSameAddress(rs: seq<Region>, p: Pool, mem: Mem, n: nat, rs1: seq<Region>, p1: Pool, mem1: Mem,
                               pa1: nat, rs2: seq<Region>, p2: Pool, mem2: Mem, pa2: nat)
    requires PagesTaken(rs, p, mem, rs1, p1, mem1, n, pa1) && PagesTaken(rs, p, mem, rs2, p2, mem2, n, pa2)
    ensures pa1 == pa2 && rs1 == rs2 && p1 == p2
  {
    var k: nat, s: nat :|
      && FirstFitAt(rs, n, k, s)
      && pa1 == (rs[k].first + s) * PAGE_SIZE
      && RunMarked(rs, p, mem, rs1, p1, mem1, k, s, n, true);
    var k': nat, s': nat :|
      && FirstFitAt(rs, n, k', s')
      && pa2 == (rs[k'].first + s') * PAGE_SIZE
      && RunMarked(rs, p, mem, rs2, p2, mem2, k', s', n, true);
    FirstFitUnique(rs, n, k, s, k', s');
  }

  /** A freed page run leaves no trace: every word of memory, every flag and every frame set is
    as it was before the allocation. */
  lemma FreeUndoesAlloc(mem: Mem, base: nat, chunks: seq<Chunk>, rs: seq<Region>, p: Pool, n: nat, pa: nat,
                        rs1: seq<Region>, p1: Pool, mem1: Mem, rs2: seq<Region>, p2: Pool, mem2: Mem)
    requires Inv(mem, base, chunks, rs, p) && n > 0
    requires PagesTaken(rs, p, mem, rs1, p1, mem1, n, pa)
    requires Consistent(rs1, p1) && PagesReturned(rs1, p1, mem1, rs2, p2, mem2, pa / PAGE_SIZE, n)
    ensures mem2 == mem && rs2 == rs && p2 == p
  {
    hide Consistent, PagesReturned, PagesTaken, BitsChanged, RunMarked;
    var k, s := TakenAt(rs, p, mem, rs1, p1, mem1, n, pa);
    TakenFrames(rs, p, mem, base, chunks, rs1, p1, mem1, n, pa);
    ReturnedAt(rs1, p1, mem1, rs2, p2, mem2, k, s, n);
    FlagsRestored(rs, p, mem, rs1, p1, mem1, rs2, p2, mem2, k, s, n);
    KnownChunk(mem, base, chunks, rs, p, k);
    MemoryRestored(mem, base, chunks[k], rs[k], mem1, mem2, s, n);
  }

  lemma TakenAt(rs: seq<Region>, p: Pool, mem: Mem, rs1: seq<Region>, p1: Pool, mem1: Mem, n: nat, pa: nat)
    returns (k: nat, s: nat)
    requires PagesTaken(rs, p, mem, rs1, p1, mem1, n, pa)
    ensures k < |rs| == |rs1| && rs[k].Region? && rs1[k].Region? && FreeRun(rs[k].flags, s, n)
    ensures rs1[k].first == rs[k].first && s + n <= |rs1[k].flags|
    ensures pa / PAGE_SIZE == rs[k].first + s
    ensures RunMarked(rs, p, mem, rs1, p1, mem1, k, s, n, true)
  {
    k, s :|
      && FirstFitAt(rs, n, k, s)
      && pa == (rs[k].first + s) * PAGE_SIZE
      && RunMarked(rs, p, mem, rs1, p1, mem1, k, s, n, true);
  }

  /** A whole run inside one chunk is returned to that chunk, uncut. */
  lemma ReturnedAt(rs: seq<Region>, p: Pool, mem: Mem, rs': seq<Region>, p': Pool, mem': Mem, k: nat, s: nat, n: nat)
    requires Consistent(rs, p) && k < |rs| && rs[k].Region? && s + n <= |rs[k].flags| && n > 0
    requires PagesReturned(rs, p, mem, rs', p', mem', rs[k].first + s, n)
    ensures RunMarked(rs, p, mem, rs', p', mem', k, s, n, false)
  {
    var f := rs[k].first + s;
    var l: nat :|
      && l < |rs| && rs[l].Holds(f)
      && var left := rs[l].first + |rs[l].flags| - f;
         RunMarked(rs, p, mem, rs', p', mem', l, f - rs[l].first, if n < left then n else left, false);
    assert rs[k].Holds(f);
    assert Apart(rs[l], rs[k]) || l == k;
  }

  lemma FlagsRestored(rs: seq<Region>, p: Pool, mem: Mem, rs1: seq<Region>, p1: Pool, mem1: Mem,
                      rs2: seq<Region>, p2: Pool, mem2: Mem, k: nat, s: nat, n: nat)
    requires RunMarked(rs, p, mem, rs1, p1, mem1, k, s, n, true)
    requires RunMarked(rs1, p1, mem1, rs2, p2, mem2, k, s, n, false)
    requires FreeRun(rs[k].flags, s, n) && Run(rs[k].first + s, n) !! p.used
    ensures rs2 == rs && p2 == p
    ensures BitsChanged(mem, mem1, rs[k].first, rs[k].bitmapPages, s, n, true)
    ensures BitsChanged(mem1, mem2, rs[k].first, rs[k].bitmapPages, s, n, false)
  {
    MarkUnmark(rs[k].flags, s, n);
    var run := Run(rs[k].first + s, n);
    assert (p.used + run) - run == p.used;
  }

  lemma MemoryRestored(mem: Mem, base: nat, c: Chunk, r: Region, mem1: Mem, mem2: Mem, s: nat, n: nat)
    requires ChunkStored(mem, base, c, r) && r.Region? && FreeRun(r.flags, s, n)
    requires BitsChanged(mem, mem1, r.first, r.bitmapPages, s, n, true)
    requires BitsChanged(mem1, mem2, r.first, r.bitmapPages, s, n, false)
    ensures mem2 == mem
  {
    BitsRestored(mem, mem1, mem2, r.first, r.bitmapPages, s, n);
  }

  /** `page_alloc(n)`, `page_free` of the result, `page_alloc(n)` again. */
  method AllocFreeAlloc(a: PageAllocator, n: nat) returns (first: nat, second: nat)
    requires a.Valid()
    modifies a.m`mem, a`regions, a`pool
    ensures a.Valid()
    ensures second == first
    ensures first == 0 <==> n == 0 || NoFit(old(a.regions), n)
    ensures first != 0 ==>
              PagesTaken(old(a.regions), old(a.pool), old(a.m.mem), a.regions, a.pool, a.m.mem, n, first)
  {
    ghost var rs, p, mem0, chunks := a.regions, a.pool, a.m.mem, a.chunks;
    first := a.PageAlloc(n);
    if first == PHYS_ADDR_NULL {
      second := a.PageAlloc(n);
      return;
    }
    ghost var rs1, p1, mem1 := a.regions, a.pool, a.m.mem;
    TakenIsFreeable(rs, p, mem0, a.m.kernelBase, chunks, rs1, p1, mem1, n, first);
    a.PageFree(first, n);
    FreeUndoesAlloc(mem0, a.m.kernelBase, chunks, rs, p, n, first, rs1, p1, mem1, a.regions, a.pool, a.m.mem);
    second := a.PageAlloc(n);
    SameRequestSameAddress(rs, p, mem0, n, rs1, p1, mem1, first, a.regions, a.pool, a.m.mem, second);
  }

  /** What `page_alloc` returns may be handed to `page_free`. */
  lemma TakenIsFreeable(rs: seq<Region>, p: Pool, mem: Mem, base: nat, chunks: seq<Chunk>,
                        rs1: seq<Region>, p1: Pool, mem1: Mem, n: nat, pa: nat)
    requires Inv(mem, base, chunks, rs, p) && |mem| <= MAX_FRAMES && n > 0
    requires PagesTaken(rs, p, mem, rs1, p1, mem1, n, pa) && Inv(mem1, base, chunks, rs1, p1)
    ensures pa + n * PAGE_SIZE < ADDRESS_SPACE
    ensures Run(pa / PAGE_SIZE, n) !! p1.bitmaps
    ensures Held(rs1, pa / PAGE_SIZE)
  {
    TakenFrames(rs, p, mem, base, chunks, rs1, p1, mem1, n, pa);
    var f := pa / PAGE_SIZE;
    assert f in Run(f, n);
    assert f in p1.managed;
  }

  // ---- page_dump_status

  /** One line of the dump: pages `start .. end`, all used or all free. */
  datatype Extent = Extent(start: nat, end: nat, used: bool)

  /** The lines cover pages `0 .. upTo` in order, without gaps, each uniform, neighbours different. */
  ghost predicate Encodes(lines: seq<Extent>, flags: seq<bool>, upTo: nat) {
    && upTo <= |flags|
    && (if |lines| == 0 then upTo == 0 else lines[0].start == 0 && lines[|lines| - 1].end == upTo)
    && (forall i: nat :: i < |lines| ==> lines[i].start < lines[i].end <= upTo)
    && (forall i: nat :: 0 < i < |lines| ==> lines[i].start == lines[i - 1].end && lines[i].used != lines[i - 1].used)
    && (forall i: nat, j: nat :: i < |lines| && lines[i].start <= j < lines[i].end ==> flags[j] == lines[i].used)
  }

  function Expand(lines: seq<Extent>): seq<bool> {
    if |lines| == 0 then []
    else
      var last := lines[|lines| - 1];
      Expand(lines[..|lines| - 1]) + seq(if last.end >= last.start then last.end - last.start else 0, _ => last.used)
  }

  lemma EncodesFront(lines: seq<Extent>, flags: seq<bool>, upTo: nat)
    requires Encodes(lines, flags, upTo) && |lines| > 0
    ensures Encodes(lines[..|lines| - 1], flags, lines[|lines| - 1].start)
  {
    var front, last := lines[..|lines| - 1], |lines| - 1;
    if |front| > 0 {
      assert front[|front| - 1] == lines[last - 1] && front[0] == lines[0];
      forall i: nat | i < |front|
        ensures front[i].end <= lines[last].start
      {
        EndsGrow(lines, flags, upTo, i, last - 1);
      }
    }
  }

  lemma {:induction false} EndsGrow(lines: seq<Extent>, flags: seq<bool>, upTo: nat, i: nat, j: nat)
    requires Encodes(lines, flags, upTo) && i <= j < |lines|
    ensures lines[i].end <= lines[j].end
  {
    if i < j { EndsGrow(lines, flags, upTo, i, j - 1); }
  }

  /** Expanding the lines gives back the flags exactly. */
  lemma {:induction false} ExpandEncoded(lines: seq<Extent>, flags: seq<bool>, upTo: nat)
    requires Encodes(lines, flags, upTo)
    ensures Expand(lines) == flags[..upTo]
  {
    if |lines| == 0 {
    } else {
      var last := lines[|lines| - 1];
      EncodesFront(lines, flags, upTo);
      ExpandEncoded(lines[..|lines| - 1], flags, last.start);
      assert flags[..upTo] == flags[..last.start] + flags[last.start..upTo];
      assert flags[last.start..upTo] == seq(last.end - last.start, _ => last.used);
    }
  }

  /** The page before the last line has the other status. */
  lemma LastMaximal(lines: seq<Extent>, flags: seq<bool>, upTo: nat)
    requires Encodes(lines, flags, upTo) && |lines| > 0
    ensures var last := lines[|lines| - 1]; last.start > 0 ==> flags[last.start - 1] != last.used
  {
    if |lines| > 1 {
      var prev := |lines| - 2;
      assert lines[prev].start <= lines[prev].end - 1 < lines[prev].end == lines[prev + 1].start;
      assert flags[lines[prev].end - 1] == lines[prev].used;
    }
  }

  /** The encoding is canonical: maximal runs leave no choice. */
  lemma {:induction false} EncodingUnique(a: seq<Extent>, b: seq<Extent>, flags: seq<bool>, upTo: nat)
    requires Encodes(a, flags, upTo) && Encodes(b, flags, upTo)
    ensures a == b
  {
    if |a| == 0 || |b| == 0 {
    } else {
      var x, y := a[|a| - 1], b[|b| - 1];
      assert x.used == flags[upTo - 1] == y.used;
      LastMaximal(a, flags, upTo);
      LastMaximal(b, flags, upTo);
      assert x.start == y.start;
      EncodesFront(a, flags, upTo);
      EncodesFront(b, flags, upTo);
      EncodingUnique(a[..|a| - 1], b[..|b| - 1], flags, x.start);
      assert a == a[..|a| - 1] + [x] && b == b[..|b| - 1] + [y];
    }
  }

  /** The dump before page `i`: lines up to `start`, then a run of `current` not yet printed. */
  ghost predicate Dumping(lines: seq<Extent>, flags: seq<bool>, start: nat, i: nat, current: bool) {
    && start < i <= |flags| && Encodes(lines, flags, start)
    && (forall j: nat :: start <= j < i ==> flags[j] == current)
    && (|lines| > 0 ==> current != lines[|lines| - 1].used)
  }

  lemma EmitLine(lines: seq<Extent>, flags: seq<bool>, start: nat, i: nat, current: bool)
    requires Dumping(lines, flags, start, i, current)
    ensures var lines' := lines + [Extent(start, i, current)];
            && Encodes(lines', flags, i)
            && (i < |flags| && flags[i] != current ==> Dumping(lines', flags, i, i + 1, flags[i]))
  {
  }

  /** page_dump_status_chunk, its lines as values. */
  method DumpStatusChunk(a: PageAllocator, k: nat) returns (lines: seq<Extent>)
    requires a.Valid() && k < |a.chunks| == |a.regions| && a.chunks[k].initialized && a.regions[k].Region?
    ensures Encodes(lines, a.regions[k].flags, |a.regions[k].flags|)
    ensures Expand(lines) == a.regions[k].flags
  {
    ghost var flags := a.regions[k].flags;
    KnownChunk(a.m.mem, a.m.kernelBase, a.chunks, a.regions, a.pool, k);
    var total := a.chunks[k].totalPages;
    lines := [];
    var startIndex := 0;
    var current := a.TestBit(k, 0);
    var i := 1;
    while i <= total
      invariant 1 <= i <= total + 1
      invariant i <= total ==> Dumping(lines, flags, startIndex, i, current)
      invariant i == total + 1 ==> Encodes(lines, flags, total)
    {
      var status := false;
      if i < total {
        status := a.TestBit(k, i);
      }
      if status != current || i == total {
        EmitLine(lines, flags, startIndex, i, current);
        lines := lines + [Extent(startIndex, i, current)];
        startIndex := i;
        current := status;
      }
      i := i + 1;
    }
    ExpandEncoded(lines, flags, total);
    assert flags[..total] == flags;
  }
}
