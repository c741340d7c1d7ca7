/** What any run of kmalloc and kfree calls amounts to. */
module HeapLaws {
  import opened Memory
  import opened FirstFit
  import opened PhysicalPages
  import opened PageAllocation
  import opened HeapModel
  import opened HeapOwnership
  import opened KernelHeap
  import opened PageLaws

  // ---- one call

  lemma FitUnique(rs: seq<Region>, n: nat, rs1: seq<Region>, pa1: nat, rs2: seq<Region>, pa2: nat)
    requires FitMarked(rs, rs1, n, pa1) && FitMarked(rs, rs2, n, pa2)
    ensures rs1 == rs2 && pa1 == pa2
  {
    var k: nat, s: nat :|
      FirstFitAt(rs, n, k, s) && pa1 == (rs[k].first + s) * PAGE_SIZE && rs1 == rs[k := rs[k].Mark(s, n, true)];
    var k': nat, s': nat :|
      FirstFitAt(rs, n, k', s') && pa2 == (rs[k'].first + s') * PAGE_SIZE && rs2 == rs[k' := rs[k'].Mark(s', n, true)];
    FirstFitUnique(rs, n, k, s, k', s');
  }

  lemma ReadyUnique(chain: seq<nat>, live: seq<Entry>, rs: seq<Region>, rs1: seq<Region>, rs2: seq<Region>)
    requires DescriptorReady(chain, live, rs, rs1) && DescriptorReady(chain, live, rs, rs2)
    ensures rs1 == rs2
  {
    hide AllFull, FitMarked;
    if AllFull(chain, LiveSlots(live)) {
      var pa1: nat :| FitMarked(rs, rs1, 1, pa1);
      var pa2: nat :| FitMarked(rs, rs2, 1, pa2);
      FitUnique(rs, 1, rs1, pa1, rs2, pa2);
    }
  }

  /** The same request in the same state gets the same pointer, or null both times, and leaves the same pages in use. */
  lemma SameRequestSameBlock(base: nat, chain: seq<nat>, live: seq<Entry>, rs: seq<Region>, size: nat,
                             rs1: seq<Region>, ptr1: nat, rs2: seq<Region>, ptr2: nat)
    requires KmallocFit(base, chain, live, rs, rs1, size, ptr1) && KmallocFit(base, chain, live, rs, rs2, size, ptr2)
    ensures ptr1 == ptr2 && rs1 == rs2
  {
    hide DescriptorReady, NoDescriptor, NumPages, FitMarked, NoFit;
    if 0 < size <= 0xFFFF_FFFF_FFFF_F000 && !NoDescriptor(chain, live, rs) {
      var n := (size + 4095) / 4096;
      var mid1 :| DescriptorReady(chain, live, rs, mid1) && BlockFit(base, mid1, rs1, n, ptr1);
      var mid2 :| DescriptorReady(chain, live, rs, mid2) && BlockFit(base, mid2, rs2, n, ptr2);
      ReadyUnique(chain, live, rs, mid1, mid2);
      if !NoFit(mid1, n) {
        var pa1: nat :| FitMarked(mid1, rs1, n, pa1) && ptr1 == PageVa(base, pa1 / PAGE_SIZE);
        var pa2: nat :| FitMarked(mid2, rs2, n, pa2) && ptr2 == PageVa(base, pa2 / PAGE_SIZE);
        FitUnique(mid1, n, rs1, pa1, rs2, pa2);
      }
    }
  }

  /** Null is returned exactly for size 0, a size whose rounding overflows 64 bits, when no descriptor is to be had, and
    when nothing fits once the descriptor has its page. */
  lemma KmallocNullIff(base: nat, chain: seq<nat>, live: seq<Entry>, rs: seq<Region>, size: nat, rs': seq<Region>,
                       ptr: nat)
    requires KmallocFit(base, chain, live, rs, rs', size, ptr)
    ensures ptr == 0 <==>
            || size == 0 || size > 0xFFFF_FFFF_FFFF_F000 || NoDescriptor(chain, live, rs)
            || exists rs1 :: DescriptorReady(chain, live, rs, rs1) && NoFit(rs1, (size + 4095) / 4096)
  {
    hide DescriptorReady, NoDescriptor, FitMarked, NoFit;
    if 0 < size <= 0xFFFF_FFFF_FFFF_F000 && !NoDescriptor(chain, live, rs) {
      var mid :| DescriptorReady(chain, live, rs, mid) && BlockFit(base, mid, rs', (size + 4095) / 4096, ptr);
      forall rs1 | DescriptorReady(chain, live, rs, rs1)
        ensures rs1 == mid
      {
        ReadyUnique(chain, live, rs, rs1, mid);
      }
    }
  }

  /** Taking the first free page leaves all but one page of any free run. */
  lemma RunLeft(rs: seq<Region>, rs1: seq<Region>, pa: nat, k: nat, s: nat, n: nat)
    requires FitMarked(rs, rs1, 1, pa) && k < |rs| && rs[k].Region? && FreeRun(rs[k].flags, s, n + 1)
    ensures k < |rs1| && rs1[k].Region? && FreeRun(rs1[k].flags, s + 1, n)
  {
    var j: nat, t: nat :| FirstFitAt(rs, 1, j, t) && rs1 == rs[j := rs[j].Mark(t, 1, true)];
    assert FreeRun(rs[k].flags, s, 1);
  }

  /** Wherever some chunk has one free page more in a row than the block needs, kmalloc grants it, from an empty heap or
    any other: the page is for the descriptor. */
  lemma RoomGrants(base: nat, chain: seq<nat>, live: seq<Entry>, rs: seq<Region>, size: nat, rs': seq<Region>,
                   ptr: nat, k: nat, s: nat)
    requires KmallocFit(base, chain, live, rs, rs', size, ptr) && 0 < size <= 0xFFFF_FFFF_FFFF_F000
    requires k < |rs| && rs[k].Region? && FreeRun(rs[k].flags, s, (size + 4095) / 4096 + 1)
    ensures ptr != 0
  {
    var n := (size + 4095) / 4096;
    assert FreeRun(rs[k].flags, s, 1) && FreeRun(rs[k].flags, s, n);
    assert !NoFit(rs, 1) && !NoFit(rs, n);
    hide AllFull, FitMarked, FreeRun;
    KmallocNullIff(base, chain, live, rs, size, rs', ptr);
    forall rs1 | DescriptorReady(chain, live, rs, rs1)
      ensures !NoFit(rs1, n)
    {
      if AllFull(chain, LiveSlots(live)) {
        var pa: nat :| FitMarked(rs, rs1, 1, pa);
        RunLeft(rs, rs1, pa, k, s, n);
      }
    }
  }

  // ---- runs of calls

  /** One call. `ptr` in `Free` is whatever the caller passes. */
  datatype Op = Alloc(size: nat) | Free(ptr: nat)

  ghost predicate Callable(ops: seq<Op>) {
    forall i: nat :: i < |ops| && ops[i].Alloc? ==> ops[i].size <= SIZE_MAX
  }

  /** The abstract heap after one call that returned `r`. */
  ghost function Effect(blocks: map<nat, nat>, op: Op, r: nat): map<nat, nat> {
    match op
    case Alloc(size) => if r == 0 then blocks else blocks[r := size]
    case Free(ptr) => blocks - {ptr}
  }

  /** A pointer that was handed out is none that was live. */
  ghost predicate Sound(blocks: map<nat, nat>, op: Op, r: nat) {
    op.Alloc? && r != 0 ==> r !in blocks && op.size > 0
  }

  ghost function Replay(blocks: map<nat, nat>, ops: seq<Op>, results: seq<nat>): map<nat, nat>
    requires |ops| == |results|
  {
    if ops == [] then blocks
    else
      var n := |ops| - 1;
      Effect(Replay(blocks, ops[..n], results[..n]), ops[n], results[n])
  }

  ghost predicate AllSound(blocks: map<nat, nat>, ops: seq<Op>, results: seq<nat>)
    requires |ops| == |results|
  {
    forall i: nat :: i < |ops| ==> Sound(Replay(blocks, ops[..i], results[..i]), ops[i], results[i])
  }

  ghost predicate NoneFailed(ops: seq<Op>, results: seq<nat>)
    requires |ops| == |results|
  {
    forall i: nat :: i < |ops| && ops[i].Alloc? ==> results[i] != 0
  }

  lemma ReplayNext(blocks: map<nat, nat>, ops: seq<Op>, results: seq<nat>, op: Op, r: nat)
    requires |ops| == |results| && AllSound(blocks, ops, results) && Sound(Replay(blocks, ops, results), op, r)
    ensures Replay(blocks, ops + [op], results + [r]) == Effect(Replay(blocks, ops, results), op, r)
    ensures AllSound(blocks, ops + [op], results + [r])
  {
    hide Effect, Sound;
    var ops', results' := ops + [op], results + [r];
    assert ops'[..|ops|] == ops && results'[..|ops|] == results;
    forall i: nat | i < |ops'|
      ensures Sound(Replay(blocks, ops'[..i], results'[..i]), ops'[i], results'[i])
    {
      if i < |ops| {
        assert ops'[..i] == ops[..i] && results'[..i] == results[..i];
      }
    }
  }

  /** What every run keeps: which used pages are not the heap's, and what is in them. */
  ghost predicate HeapKept(chain: seq<nat>, live: seq<Entry>, p: Pool, mem: Mem, chain': seq<nat>, live': seq<Entry>,
                           p': Pool, mem': Mem)
  {
    && Rest(p', chain', live') == Rest(p, chain, live)
    && p'.managed == p.managed && p'.bitmaps == p.bitmaps && |mem'| == |mem|
    && forall f: nat ::
         f < |mem| && f !in p.bitmaps && (f in p.managed ==> f in Rest(p, chain, live)) ==> mem'[f] == mem[f]
  }

  lemma KeptOutside(chain: seq<nat>, live: seq<Entry>, p: Pool, mem: Mem, chain': seq<nat>, live': seq<Entry>, p': Pool,
                    mem': Mem, changed: seq<nat>)
    requires Rest(p', chain', live') == Rest(p, chain, live) && p'.managed == p.managed && p'.bitmaps == p.bitmaps
    requires changed == chain || changed == chain'
    requires Owns(chain, live, p) && Owns(chain', live', p') && p.used <= p.managed && p'.used <= p'.managed
    requires SameOutside(mem, mem', p.bitmaps + Members(changed))
    ensures HeapKept(chain, live, p, mem, chain', live', p', mem')
  {
    OwnedPages(chain, live, p);
    OwnedPages(chain', live', p');
    forall f: nat | f in changed
      ensures f in p.managed && f !in Rest(p, chain, live)
    {
      assert f in Members(changed);
    }
  }

  lemma DeniedKept(chain: seq<nat>, live: seq<Entry>, p: Pool, mem: Mem, chain': seq<nat>, live': seq<Entry>, p': Pool,
                   mem': Mem)
    requires BlockDenied(chain, live, p, mem, chain', live', p', mem')
    requires Owns(chain, live, p) && Owns(chain', live', p') && p.used <= p.managed && p'.used <= p'.managed
    ensures HeapKept(chain, live, p, mem, chain', live', p', mem') && live' == live
  {
    hide Owns, HeapKept;
    KeptOutside(chain, live, p, mem, chain', live', p', mem', chain');
  }

  lemma GrantedKept(base: nat, chain: seq<nat>, live: seq<Entry>, p: Pool, mem: Mem, chain': seq<nat>,
                    live': seq<Entry>, p': Pool, mem': Mem, size: nat, ptr: nat)
    requires BlockGranted(base, chain, live, p, mem, chain', live', p', mem', size, ptr)
    requires Owns(chain, live, p) && Owns(chain', live', p') && p.used <= p.managed && p'.used <= p'.managed
    ensures HeapKept(chain, live, p, mem, chain', live', p', mem')
            && (NoneEmpty(chain, live) ==> NoneEmpty(chain', live')) && size > 0
  {
    assert EntryOwned(live'[|live|], p');
    hide Owns, HeapKept;
    KeptOutside(chain, live, p, mem, chain', live', p', mem', chain');
  }

  lemma FreedKept(base: nat, chain: seq<nat>, live: seq<Entry>, p: Pool, mem: Mem, chain': seq<nat>, live': seq<Entry>,
                  p': Pool, mem': Mem, ptr: nat)
    requires BlockFreed(base, chain, live, p, mem, chain', live', p', mem', ptr)
    requires Owns(chain, live, p) && Owns(chain', live', p') && p.used <= p.managed && p'.used <= p'.managed
    ensures HeapKept(chain, live, p, mem, chain', live', p', mem')
            && (NoneEmpty(chain, live) ==> NoneEmpty(chain', live'))
  {
    hide Owns, HeapKept;
    KeptOutside(chain, live, p, mem, chain', live', p', mem', chain);
  }

  /** Any run of calls. The heap is then exactly the map that the calls and their results spell out. */
  method RunHeap(h: Heap, ops: seq<Op>) returns (results: seq<nat>)
    requires h.Valid() && Callable(ops)
    modifies h, h.pages`regions, h.pages`pool, h.m`mem
    ensures h.Valid() && |results| == |ops|
    ensures FirstsDistinct(old(h.live)) && FirstsDistinct(h.live)
    ensures Blocks(h.m.kernelBase, h.live) == Replay(Blocks(h.m.kernelBase, old(h.live)), ops, results)
    ensures AllSound(Blocks(h.m.kernelBase, old(h.live)), ops, results)
    ensures HeapKept(old(h.chain), old(h.live), old(h.pages.pool), old(h.m.mem), h.chain, h.live, h.pages.pool, h.m.mem)
    ensures NoneFailed(ops, results) && NoneEmpty(old(h.chain), old(h.live)) ==> NoneEmpty(h.chain, h.live)
  {
    hide HeapStored, Owns, Inv, BlockDenied, BlockGranted, BlockFreed, AtMostOneEmpty, FirstsDistinct, Blocks,
         NoneEmpty, Replay, AllSound, NoFit, HeapKept;
    ghost var chain0, live0, p0, mem0, base := h.chain, h.live, h.pages.pool, h.m.mem, h.m.kernelBase;
    OwnedFirstsDistinct(chain0, live0, p0);
    ghost var blocks0 := Blocks(base, live0);
    results := [];
    NothingRun(blocks0, chain0, live0, p0, mem0);
    var i := 0;
    while i < |ops|
      invariant i <= |ops| && |results| == i && h.Valid() && h.m.kernelBase == base
      invariant FirstsDistinct(h.live)
      invariant Blocks(base, h.live) == Replay(blocks0, ops[..i], results) && AllSound(blocks0, ops[..i], results)
      invariant HeapKept(chain0, live0, p0, mem0, h.chain, h.live, h.pages.pool, h.m.mem)
      invariant NoneFailed(ops[..i], results) && NoneEmpty(chain0, live0) ==> NoneEmpty(h.chain, h.live)
    {
      var r := Call(h, ops[i], chain0, live0, p0, mem0);
      ReplayNext(blocks0, ops[..i], results, ops[i], r);
      FailedNext(ops[..i], results, ops[i], r);
      assert ops[..i + 1] == ops[..i] + [ops[i]];
      results := results + [r];
      i := i + 1;
    }
    assert ops[..i] == ops;
  }

  lemma NothingRun(blocks: map<nat, nat>, chain: seq<nat>, live: seq<Entry>, p: Pool, mem: Mem)
    ensures Replay(blocks, [], []) == blocks && AllSound(blocks, [], [])
            && HeapKept(chain, live, p, mem, chain, live, p, mem)
  {
  }

  lemma FailedNext(ops: seq<Op>, results: seq<nat>, op: Op, r: nat)
    requires |ops| == |results|
    ensures NoneFailed(ops + [op], results + [r]) ==> NoneFailed(ops, results) && (op.Alloc? ==> r != 0)
  {
    var ops', results' := ops + [op], results + [r];
    if NoneFailed(ops', results') {
      forall i: nat | i < |ops| && ops[i].Alloc?
        ensures results[i] != 0
      {
        assert ops'[i].Alloc? && results'[i] == results[i];
      }
      assert ops'[|ops|] == op && results'[|ops|] == r;
    }
  }

  lemma KeptTrans(c0: seq<nat>, l0: seq<Entry>, p0: Pool, m0: Mem, c1: seq<nat>, l1: seq<Entry>, p1: Pool, m1: Mem,
                  c2: seq<nat>, l2: seq<Entry>, p2: Pool, m2: Mem)
    requires HeapKept(c0, l0, p0, m0, c1, l1, p1, m1) && HeapKept(c1, l1, p1, m1, c2, l2, p2, m2)
    ensures HeapKept(c0, l0, p0, m0, c2, l2, p2, m2)
  {
  }

  /** One call, whichever it is; kfree returns nothing. */
  method Call(h: Heap, op: Op, ghost chain0: seq<nat>, ghost live0: seq<Entry>, ghost p0: Pool, ghost mem0: Mem)
    returns (r: nat)
    requires h.Valid() && (op.Alloc? ==> op.size <= SIZE_MAX)
    requires HeapKept(chain0, live0, p0, mem0, h.chain, h.live, h.pages.pool, h.m.mem)
    modifies h, h.pages`regions, h.pages`pool, h.m`mem
    ensures h.Valid() && FirstsDistinct(old(h.live)) && FirstsDistinct(h.live)
    ensures Blocks(h.m.kernelBase, h.live) == Effect(Blocks(h.m.kernelBase, old(h.live)), op, r)
    ensures Sound(Blocks(h.m.kernelBase, old(h.live)), op, r)
    ensures HeapKept(chain0, live0, p0, mem0, h.chain, h.live, h.pages.pool, h.m.mem)
    ensures (op.Alloc? ==> r != 0) && NoneEmpty(old(h.chain), old(h.live)) ==> NoneEmpty(h.chain, h.live)
  {
    hide HeapStored, Owns, Inv, BlockDenied, BlockGranted, BlockFreed, AtMostOneEmpty, FirstsDistinct, Blocks,
         NoneEmpty, NoFit, HeapKept;
    ghost var chain, live, p, mem, base := h.chain, h.live, h.pages.pool, h.m.mem, h.m.kernelBase;
    PoolFacts(mem, base, h.pages.chunks, h.pages.regions, p);
    match op
    case Alloc(size) =>
      r := h.Kmalloc(size);
      PoolFacts(h.m.mem, base, h.pages.chunks, h.pages.regions, h.pages.pool);
      if r == 0 {
        DeniedKept(chain, live, p, mem, h.chain, h.live, h.pages.pool, h.m.mem);
      } else {
        GrantedKept(base, chain, live, p, mem, h.chain, h.live, h.pages.pool, h.m.mem, size, r);
      }
      KeptTrans(chain0, live0, p0, mem0, chain, live, p, mem, h.chain, h.live, h.pages.pool, h.m.mem);
    case Free(ptr) =>
      r := 0;
      h.Kfree(ptr);
      PoolFacts(h.m.mem, base, h.pages.chunks, h.pages.regions, h.pages.pool);
      if ptr in Blocks(base, live) {
        FreedKept(base, chain, live, p, mem, h.chain, h.live, h.pages.pool, h.m.mem, ptr);
        KeptTrans(chain0, live0, p0, mem0, chain, live, p, mem, h.chain, h.live, h.pages.pool, h.m.mem);
      }
  }

  // ---- freeing everything

  /** A run that only frees. */
  function Frees(ptrs: seq<nat>): (ops: seq<Op>)
    ensures |ops| == |ptrs| && forall i: nat :: i < |ptrs| ==> ops[i] == Free(ptrs[i])
  {
    seq(|ptrs|, i requires 0 <= i < |ptrs| => Free(ptrs[i]))
  }

  lemma {:induction false} ReplayFrees(blocks: map<nat, nat>, ptrs: seq<nat>, results: seq<nat>)
    requires |ptrs| == |results|
    ensures Replay(blocks, Frees(ptrs), results) == map p | p in blocks && p !in ptrs :: blocks[p]
  {
    if ptrs != [] {
      var n := |ptrs| - 1;
      ReplayFrees(blocks, ptrs[..n], results[..n]);
      assert Frees(ptrs)[..n] == Frees(ptrs[..n]);
      assert ptrs == ptrs[..n] + [ptrs[n]];
    }
  }

  lemma FirstBlock(base: nat, live: seq<Entry>)
    requires FirstsDistinct(live)
    ensures live != [] ==> PageVa(base, live[0].first) in Blocks(base, live)
  {
    if live != [] {
      assert live[0] in live;
    }
  }

  /** The pages in use once no block is left: at most one management page beyond those of others. */
  lemma OnlyRest(mem: Mem, base: nat, head: nat, first: nat, chain: seq<nat>, live: seq<Entry>, p: Pool)
    requires HeapStored(mem, base, head, first, chain, live, LiveSlots(live)) && Owns(chain, live, p)
             && AtMostOneEmpty(chain, live)
    requires live == []
    ensures |chain| <= 1 && p.used == Rest(p, chain, live) + Members(chain)
    ensures NoneEmpty(chain, live) ==> chain == [] && p.used == Rest(p, chain, live)
  {
    NothingLive(chain, live);
    OwnedPages(chain, live, p);
    assert forall f :: InHeap(chain, live, f) <==> f in chain;
    if chain == [] {
      assert Members(chain) == {};
    }
  }

  /** The used frames determine every flag, and so every bit of every bitmap. */
  lemma UsedDeterminesFlags(mem: Mem, mem': Mem, base: nat, chunks: seq<Chunk>, rs: seq<Region>, p: Pool,
                            rs': seq<Region>, p': Pool)
    requires Inv(mem, base, chunks, rs, p) && Inv(mem', base, chunks, rs', p') && p'.used == p.used
    ensures rs' == rs
  {
    forall k: nat | k < |rs|
      ensures rs'[k] == rs[k]
    {
      KnownChunk(mem, base, chunks, rs, p, k);
      KnownChunk(mem', base, chunks, rs', p', k);
      if rs[k].Region? {
        SameFlags(rs[k], p, rs'[k], p');
      }
    }
  }

  lemma SameFlags(r: Region, p: Pool, r': Region, p': Pool)
    requires TracksRegion(r, p) && TracksRegion(r', p') && p'.used == p.used
    requires r.Region? && r'.Region? && r'.first == r.first && |r'.flags| == |r.flags|
    ensures r'.flags == r.flags
  {
    forall i: nat | i < |r.flags|
      ensures r'.flags[i] == r.flags[i]
    {
      var f := r.first + i;
      assert r.Holds(f) && r'.Holds(f);
      assert f in p.used <==> r.Used(f);
      assert f in p'.used <==> r'.Used(f);
    }
  }

  /** Every bit of every bitmap is what it was. */
  ghost predicate SameBitmaps(chunks: seq<Chunk>, mem: Mem, mem': Mem) {
    && |mem'| == |mem|
    && forall k: nat, i: nat :: k < |chunks| && chunks[k].initialized && i < chunks[k].totalPages ==>
         var first := chunks[k].memBase / PAGE_SIZE;
         first + i / BITS_PER_FRAME < |mem| && Bit(mem', first, i) == Bit(mem, first, i)
  }

  lemma BitmapsAgain(mem: Mem, mem': Mem, base: nat, chunks: seq<Chunk>, rs: seq<Region>, p: Pool, rs': seq<Region>,
                     p': Pool)
    requires Inv(mem, base, chunks, rs, p) && Inv(mem', base, chunks, rs', p') && p'.used == p.used && |mem'| == |mem|
    ensures SameBitmaps(chunks, mem, mem')
  {
    UsedDeterminesFlags(mem, mem', base, chunks, rs, p, rs', p');
    forall k: nat, i: nat | k < |chunks| && chunks[k].initialized && i < chunks[k].totalPages
      ensures var first := chunks[k].memBase / PAGE_SIZE;
              first + i / BITS_PER_FRAME < |mem| && Bit(mem', first, i) == Bit(mem, first, i)
    {
      KnownChunk(mem, base, chunks, rs, p, k);
      BitmapFits(chunks[k].totalPages);
      assert BitsStored(mem, rs[k].first, rs[k].flags);
      assert ChunkStored(mem', base, chunks[k], rs'[k]);
      assert rs[k].first == chunks[k].memBase / PAGE_SIZE;
    }
  }

  /** From an empty heap: any calls, then kfree of every live block, in any order and with any other
    pointers in between. Without a failed kmalloc every bitmap is back to what it was; otherwise at
    most one page more is in use. */
  method RunAndFreeAll(h: Heap, ops: seq<Op>, order: seq<nat>) returns (results: seq<nat>)
    requires h.Valid() && Callable(ops) && h.live == [] && h.chain == []
    modifies h, h.pages`regions, h.pages`pool, h.m`mem
    ensures h.Valid() && |results| == |ops|
    ensures FreesAll(ops, results, order) ==>
              && h.live == [] && |h.chain| <= 1
              && h.pages.pool.used == old(h.pages.pool.used) + Members(h.chain)
    ensures FreesAll(ops, results, order) && NoneFailed(ops, results) ==>
              && h.chain == [] && h.pages.pool.used == old(h.pages.pool.used)
              && SameBitmaps(h.pages.chunks, old(h.m.mem), h.m.mem)
  {
    hide HeapStored, Owns, Inv, AtMostOneEmpty, FirstsDistinct, Blocks, NoneEmpty, Replay, AllSound, NoneFailed,
         SameBitmaps;
    ghost var p0, mem0, rs0, base := h.pages.pool, h.m.mem, h.pages.regions, h.m.kernelBase;
    EmptyHeap(p0, base);
    results := RunHeap(h, ops);
    ghost var blocks, chain1, live1, p1, mem1 := Blocks(base, h.live), h.chain, h.live, h.pages.pool, h.m.mem;
    var freed := RunHeap(h, Frees(order));
    ReplayFrees(blocks, order, freed);
    KeptTrans([], [], p0, mem0, chain1, live1, p1, mem1, h.chain, h.live, h.pages.pool, h.m.mem);
    FreesNeverFail(order, freed);
    if FreesAll(ops, results, order) {
      assert Blocks(base, h.live) == map[];
      FirstBlock(base, h.live);
      OnlyRest(h.m.mem, base, h.kallocPageHead, h.allocatedHead, h.chain, h.live, h.pages.pool);
      if NoneFailed(ops, results) {
        BitmapsAgain(mem0, h.m.mem, base, h.pages.chunks, rs0, p0, h.pages.regions, h.pages.pool);
      }
    }
  }

  /** `order` names every block that the calls left live. */
  ghost predicate FreesAll(ops: seq<Op>, results: seq<nat>, order: seq<nat>) {
    |ops| == |results| && forall p :: p in Replay(map[], ops, results) ==> p in order
  }

  lemma FreesNeverFail(ptrs: seq<nat>, results: seq<nat>)
    requires |ptrs| == |results|
    ensures NoneFailed(Frees(ptrs), results)
  {
  }

  lemma EmptyHeap(p: Pool, base: nat)
    ensures FirstsDistinct([]) && Blocks(base, []) == map[] && Rest(p, [], []) == p.used && NoneEmpty([], [])
  {
    assert forall f :: !InHeap([], [], f);
  }
}
