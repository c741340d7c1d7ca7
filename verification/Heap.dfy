/** kalloc.c: kmalloc and kfree over the page allocator. */
module KernelHeap {
  import opened Bits
  import opened Memory
  import opened PhysicalPages
  import opened PageAllocation
  import opened HeapModel
  import opened HeapOwnership

  /** The heap as memory shows it. `slots` are the descriptors marked in use: those of live
    blocks, and for the time of a kmalloc the one being filled in. */
  ghost predicate HeapStored(mem: Mem, base: nat, head: nat, first: nat, chain: seq<nat>, live: seq<Entry>,
                             slots: set<Slot>)
  {
    && ChainOk(mem, base, head, chain)
    && ListOk(mem, base, first, live)
    && SlotsOk(mem, chain, slots)
    && LiveSlots(live) <= slots
  }

  lemma ChainElsewhere(mem: Mem, mem': Mem, base: nat, head: nat, chain: seq<nat>, changed: set<nat>)
    requires ChainOk(mem, base, head, chain)
    requires SameOutside(mem, mem', changed) && forall f :: f in chain ==> f !in changed
    ensures ChainOk(mem', base, head, chain)
  {
  }

  lemma ListElsewhere(mem: Mem, mem': Mem, base: nat, first: nat, chain: seq<nat>, live: seq<Entry>, changed: set<nat>)
    requires ListOk(mem, base, first, live)
    requires forall i: nat :: i < |live| ==> live[i].slot.frame in chain
    requires SameOutside(mem, mem', changed) && forall f :: f in chain ==> f !in changed
    ensures ListOk(mem', base, first, live)
  {
    forall i: nat | i < |live|
      ensures EntryStored(mem', base, live[i], EntryLink(base, live, i + 1))
    {
      assert EntryStored(mem, base, live[i], EntryLink(base, live, i + 1));
    }
  }

  lemma SlotsElsewhere(mem: Mem, mem': Mem, chain: seq<nat>, slots: set<Slot>, changed: set<nat>)
    requires SlotsOk(mem, chain, slots)
    requires SameOutside(mem, mem', changed) && forall f :: f in chain ==> f !in changed
    ensures SlotsOk(mem', chain, slots)
  {
  }

  /** Words outside the management pages do not matter to the heap. */
  lemma HeapElsewhere(mem: Mem, mem': Mem, base: nat, head: nat, first: nat, chain: seq<nat>, live: seq<Entry>,
                      slots: set<Slot>, changed: set<nat>)
    requires HeapStored(mem, base, head, first, chain, live, slots)
    requires SameOutside(mem, mem', changed) && Members(chain) !! changed
    ensures HeapStored(mem', base, head, first, chain, live, slots)
  {
    assert forall f :: f in chain ==> f in Members(chain);
    ChainElsewhere(mem, mem', base, head, chain, changed);
    assert forall i: nat :: i < |live| ==> live[i].slot in slots;
    ListElsewhere(mem, mem', base, first, chain, live, changed);
    SlotsElsewhere(mem, mem', chain, slots, changed);
  }

  lemma OwnedPages(chain: seq<nat>, live: seq<Entry>, p: Pool)
    requires Owns(chain, live, p)
    ensures Members(chain) <= p.used && Members(chain) !! p.bitmaps
  {
    forall f | f in chain
      ensures f in p.used && f !in p.bitmaps
    {
      var i: nat :| i < |chain| && chain[i] == f;
      assert PageOwned(chain[i], p);
    }
  }

  /** Setting the in-use flag of a descriptor. */
  lemma FlagSet(mem: Mem, base: nat, head: nat, first: nat, chain: seq<nat>, live: seq<Entry>, slots: set<Slot>,
                s: Slot)
    requires HeapStored(mem, base, head, first, chain, live, slots)
    requires s.frame in chain && s.idx < 127
    ensures HeapStored(SetWord(mem, s, 2, 1), base, head, first, chain, live, slots + {s})
  {
    WordKeepsChain(mem, base, head, chain, s, 2, 1);
    WordKeepsList(mem, base, first, live, s, 2, 1);
    FlagStored(mem, chain, slots, s, 1);
  }

  /** Clearing the in-use flag of a descriptor off the list. */
  lemma FlagCleared(mem: Mem, base: nat, head: nat, first: nat, chain: seq<nat>, live: seq<Entry>, slots: set<Slot>,
                    s: Slot)
    requires HeapStored(mem, base, head, first, chain, live, slots)
    requires s.frame in chain && s.idx < 127 && s !in LiveSlots(live)
    ensures HeapStored(SetWord(mem, s, 2, 0), base, head, first, chain, live, slots - {s})
  {
    WordKeepsChain(mem, base, head, chain, s, 2, 0);
    WordKeepsList(mem, base, first, live, s, 2, 0);
    FlagStored(mem, chain, slots, s, 0);
  }

  /** Filling in pointer, size or link of a descriptor off the list. */
  lemma FieldStored(mem: Mem, base: nat, head: nat, first: nat, chain: seq<nat>, live: seq<Entry>, slots: set<Slot>,
                    s: Slot, k: nat, w: Word)
    requires HeapStored(mem, base, head, first, chain, live, slots)
    requires s.frame in chain && s.idx < 127 && s !in LiveSlots(live) && k < 4 && k != 2
    ensures HeapStored(SetWord(mem, s, k, w), base, head, first, chain, live, slots)
  {
    WordKeepsChain(mem, base, head, chain, s, k, w);
    WordKeepsList(mem, base, first, live, s, k, w);
    WordKeepsSlots(mem, chain, slots, s, k, w);
  }

  lemma LiveSlotsAppend(live: seq<Entry>, e: Entry)
    ensures LiveSlots(live + [e]) == LiveSlots(live) + {e.slot}
  {
    var live' := live + [e];
    forall s | s in LiveSlots(live)
      ensures s in LiveSlots(live')
    {
      var i: nat :| i < |live| && live[i].slot == s;
      assert live'[i].slot == s;
    }
    assert live'[|live|].slot == e.slot;
  }

  lemma LiveSlotsWithout(live: seq<Entry>, k: nat)
    requires SlotsDistinct(live) && k < |live|
    ensures LiveSlots(Without(live, k)) == LiveSlots(live) - {live[k].slot}
  {
    var live' := Without(live, k);
    forall s | s in LiveSlots(live) && s != live[k].slot
      ensures s in LiveSlots(live')
    {
      var i: nat :| i < |live| && live[i].slot == s;
      assert live'[if i < k then i else i - 1].slot == s;
    }
    forall s | s in LiveSlots(live')
      ensures s in LiveSlots(live) && s != live[k].slot
    {
      var i: nat :| i < |live'| && live'[i].slot == s;
      assert live[if i < k then i else i + 1].slot == s;
    }
  }

  /** A zeroed frame holds no descriptor in use. */
  lemma SlotsZeroPage(mem: Mem, chain: seq<nat>, slots: set<Slot>, f: nat)
    requires SlotsOk(mem, chain, slots) && f < |mem| && mem[f] == ZeroFrame() && f !in chain
    ensures SlotsOk(mem, chain + [f], slots)
  {
  }

  // ---- steps that change a list

  /** A zeroed frame becomes the last management page. */
  lemma PageJoins(mem: Mem, base: nat, head: nat, first: nat, chain: seq<nat>, live: seq<Entry>, slots: set<Slot>,
                  f: nat)
    requires HeapStored(mem, base, head, first, chain, live, slots)
    requires 0 < f < |mem| && f !in chain && mem[f] == ZeroFrame() && PageVa(base, f) < ADDRESS_SPACE
    ensures |chain| == 0 ==> HeapStored(mem, base, PageVa(base, f), first, [f], live, slots)
    ensures |chain| > 0 ==>
              && chain[|chain| - 1] < |mem|
              && HeapStored(SetLink(mem, chain[|chain| - 1], PageVa(base, f)), base, head, first, chain + [f], live,
                            slots)
  {
    ChainAppend(mem, base, head, chain, f);
    SlotsZeroPage(mem, chain, slots, f);
    if |chain| > 0 {
      var last := chain[|chain| - 1];
      LinkKeepsList(mem, base, first, live, last, PageVa(base, f));
      LinkKeepsSlots(mem, chain + [f], slots, last, PageVa(base, f));
    } else {
      assert chain + [f] == [f];
    }
  }

  /** A filled-in descriptor becomes the last of the list. */
  lemma EntryJoins(mem: Mem, base: nat, head: nat, first: nat, chain: seq<nat>, live: seq<Entry>, slots: set<Slot>,
                   e: Entry)
    requires HeapStored(mem, base, head, first, chain, live, slots)
    requires e.slot in slots && e.slot !in LiveSlots(live) && EntryStored(mem, base, e, 0)
    requires SlotVa(base, e.slot) < ADDRESS_SPACE
    ensures |live| == 0 ==> HeapStored(mem, base, head, SlotVa(base, e.slot), chain, live + [e], slots)
    ensures |live| > 0 ==>
              && SlotPlaced(mem, live[|live| - 1].slot)
              && HeapStored(SetWord(mem, live[|live| - 1].slot, 3, SlotVa(base, e.slot)), base, head, first, chain,
                            live + [e], slots)
  {
    LiveSlotsAppend(live, e);
    if |live| > 0 {
      ListAppend(mem, base, first, live, e);
      var last := live[|live| - 1].slot;
      WordKeepsChain(mem, base, head, chain, last, 3, SlotVa(base, e.slot));
      WordKeepsSlots(mem, chain, slots, last, 3, SlotVa(base, e.slot));
    } else {
      ListOfOne(mem, base, live, e);
    }
  }

  lemma ListOfOne(mem: Mem, base: nat, live: seq<Entry>, e: Entry)
    requires |live| == 0 && EntryStored(mem, base, e, 0)
    ensures ListOk(mem, base, SlotVa(base, e.slot), live + [e])
  {
    assert live + [e] == [e];
  }

  /** The first descriptor leaves the list. */
  lemma FirstEntryLeaves(mem: Mem, base: nat, head: nat, first: nat, chain: seq<nat>, live: seq<Entry>,
                         slots: set<Slot>)
    requires HeapStored(mem, base, head, first, chain, live, slots) && |live| > 0
    ensures HeapStored(mem, base, head, EntryLink(base, live, 1), chain, Without(live, 0), slots)
  {
    ListUnlinkHead(mem, base, first, live);
    LiveSlotsWithout(live, 0);
  }

  /** A later descriptor leaves the list. */
  lemma EntryLeaves(mem: Mem, base: nat, head: nat, first: nat, chain: seq<nat>, live: seq<Entry>, slots: set<Slot>,
                    i: nat)
    requires HeapStored(mem, base, head, first, chain, live, slots) && 0 < i < |live|
    requires EntryLink(base, live, i + 1) < ADDRESS_SPACE
    ensures SlotPlaced(mem, live[i - 1].slot)
    ensures HeapStored(SetWord(mem, live[i - 1].slot, 3, EntryLink(base, live, i + 1)), base, head, first, chain,
                       Without(live, i), slots)
  {
    ListUnlink(mem, base, first, live, i);
    LiveSlotsWithout(live, i);
    var prev := live[i - 1].slot;
    WordKeepsChain(mem, base, head, chain, prev, 3, EntryLink(base, live, i + 1));
    WordKeepsSlots(mem, chain, slots, prev, 3, EntryLink(base, live, i + 1));
  }

  /** A page without descriptors in use leaves the chain. */
  lemma SlotsWithoutPage(mem: Mem, chain: seq<nat>, slots: set<Slot>, k: nat)
    requires SlotsOk(mem, chain, slots) && Distinct(chain) && k < |chain|
    requires forall s :: s in slots ==> s.frame != chain[k]
    ensures SlotsOk(mem, Without(chain, k), slots)
  {
    MembersWithout(chain, k);
  }

  lemma FirstPageLeaves(mem: Mem, base: nat, head: nat, first: nat, chain: seq<nat>, live: seq<Entry>, slots: set<Slot>)
    requires HeapStored(mem, base, head, first, chain, live, slots) && |chain| > 0
    requires forall s :: s in slots ==> s.frame != chain[0]
    ensures HeapStored(mem, base, ChainLink(base, chain, 1), first, Without(chain, 0), live, slots)
  {
    ChainUnlinkHead(mem, base, head, chain);
    SlotsWithoutPage(mem, chain, slots, 0);
  }

  lemma PageLeaves(mem: Mem, base: nat, head: nat, first: nat, chain: seq<nat>, live: seq<Entry>, slots: set<Slot>,
                   k: nat)
    requires HeapStored(mem, base, head, first, chain, live, slots) && 0 < k < |chain|
    requires forall s :: s in slots ==> s.frame != chain[k]
    requires ChainLink(base, chain, k + 1) < ADDRESS_SPACE
    ensures chain[k - 1] < |mem|
    ensures HeapStored(SetLink(mem, chain[k - 1], ChainLink(base, chain, k + 1)), base, head, first, Without(chain, k),
                       live, slots)
  {
    ChainUnlink(mem, base, head, chain, k);
    SlotsWithoutPage(mem, chain, slots, k);
    LinkKeepsList(mem, base, first, live, chain[k - 1], ChainLink(base, chain, k + 1));
    LinkKeepsSlots(mem, Without(chain, k), slots, chain[k - 1], ChainLink(base, chain, k + 1));
  }

  class Heap {
    const m: Machine
    const pages: PageAllocator
    var allocatedHead: nat
    var kallocPageHead: nat
    ghost var chain: seq<nat>
    ghost var live: seq<Entry>

    ghost predicate Shape(slots: set<Slot>)
      reads this, m, pages
    {
      && pages.m == m && pages.Valid()
      && HeapStored(m.mem, m.kernelBase, kallocPageHead, allocatedHead, chain, live, slots)
      && Owns(chain, live, pages.pool)
    }

    ghost predicate Valid()
      reads this, m, pages
    {
      Shape(LiveSlots(live)) && AtMostOneEmpty(chain, live)
    }

    constructor (pages: PageAllocator)
      requires pages.Valid()
      ensures this.pages == pages && m == pages.m && chain == [] && live == []
      ensures Valid()
    {
      this.pages := pages;
      m := pages.m;
      allocatedHead, kallocPageHead := 0, 0;
      chain, live := [], [];
    }

    /** alloc_management_page */
    method AllocManagementPage() returns (va: nat, ghost f: nat)
      requires pages.m == m && pages.Valid()
      modifies pages`regions, pages`pool, m`mem
      ensures pages.Valid()
      ensures va == 0 ==>
                && m.mem == old(m.mem) && pages.regions == old(pages.regions) && pages.pool == old(pages.pool)
                && NoFit(pages.regions, 1)
      ensures va != 0 ==> NewPage(old(m.mem), old(pages.pool), m.mem, pages.pool, f) && va == PageVa(m.kernelBase, f)
      ensures va != 0 ==> OneTaken(old(pages.regions), pages.regions)
    {
      ghost var p0, mem0, rs := pages.pool, m.mem, pages.regions;
      var pa := pages.PageAlloc(1);
      f := pa / PAGE_SIZE;
      if pa == PHYS_ADDR_NULL {
        return 0, f;
      }
      ghost var mem1 := m.mem;
      TakenFit(rs, p0, mem0, pages.regions, pages.pool, mem1, 1, pa);
      LinearMap(m.kernelBase, pa);
      va := PaToVa(m.kernelBase, pa);
      PageMade(p0, mem0, pages.pool, mem1, pa, f);
      pages.ZeroPage(va, f);
    }

    /** Word `k` of the descriptor at `va`: 0 pointer, 1 size, 2 in use, 3 next. */
    method LoadField(va: nat, k: nat, ghost s: Slot) returns (w: Word)
      requires m.Valid() && s.frame < |m.mem| && s.idx < 127 && k < 4
      requires va == SlotVa(m.kernelBase, s)
      ensures w == m.mem[s.frame][4 * s.idx + k]
    {
      SlotWord(m.kernelBase, s, k, |m.mem|);
      w := m.LoadWord(va + 8 * k, s.frame, 4 * s.idx + k);
    }

    method LoadLink(va: nat, ghost f: nat) returns (w: Word)
      requires m.Valid() && f < |m.mem| && va == PageVa(m.kernelBase, f)
      ensures w == NextPageAt(m.mem, f)
    {
      LinkWord(m.kernelBase, f, |m.mem|);
      w := m.LoadWord(va + 8 * LINK_WORD, f, LINK_WORD);
    }

    /** First descriptor of a management page that is not in use, or 127. */
    method FindUnusedSlot(va: nat, ghost f: nat, ghost slots: set<Slot>) returns (idx: nat)
      requires m.Valid() && SlotsOk(m.mem, chain, slots) && f in chain && va == PageVa(m.kernelBase, f)
      ensures idx <= 127
      ensures idx < 127 ==> Slot(f, idx) !in slots
      ensures idx == 127 ==> forall i: nat :: i < 127 ==> Slot(f, i) in slots
    {
      PageLayout();
      idx := 0;
      while idx < SLOTS_PER_PAGE
        invariant idx <= 127
        invariant forall i: nat :: i < idx ==> Slot(f, i) in slots
      {
        var used := LoadField(va + 32 * idx, 2, Slot(f, idx));
        assert InUse(m.mem, Slot(f, idx)) <==> used != 0;
        if used == 0 {
          return;
        }
        idx := idx + 1;
      }
    }

    /** The scan of find_free_management_block over the chain. */
    method ScanChain(ghost slots: set<Slot>) returns (block: nat, last: nat, ghost s: Slot)
      requires m.Valid() && ChainOk(m.mem, m.kernelBase, kallocPageHead, chain) && SlotsOk(m.mem, chain, slots)
      ensures block != 0 ==>
                s.frame in chain && s.idx < 127 && s !in slots && block == SlotVa(m.kernelBase, s)
      ensures block == 0 ==> AllFull(chain, slots)
      ensures block == 0 ==> last == if |chain| == 0 then 0 else PageVa(m.kernelBase, chain[|chain| - 1])
    {
      PageLayout();
      var current, prev := kallocPageHead, 0;
      ghost var i: nat := 0;
      s := Slot(0, 0);
      while current != 0
        invariant i <= |chain| && current == ChainLink(m.kernelBase, chain, i)
        invariant prev == if i == 0 then 0 else PageVa(m.kernelBase, chain[i - 1])
        invariant forall k: nat, j: nat :: k < i && j < 127 ==> Slot(chain[k], j) in slots
        decreases |chain| - i
      {
        hide SlotsOk;
        var idx := FindUnusedSlot(current, chain[i], slots);
        if idx < SLOTS_PER_PAGE {
          s := Slot(chain[i], idx);
          return current + 32 * idx, prev, s;
        }
        prev := current;
        current := LoadLink(current, chain[i]);
        i := i + 1;
      }
      return 0, prev, s;
    }

    method StoreField(va: nat, k: nat, w: Word, ghost s: Slot)
      requires pages.m == m && pages.Valid() && s.frame < |m.mem| && s.idx < 127 && k < 4
      requires va == SlotVa(m.kernelBase, s) && s.frame !in pages.pool.bitmaps
      modifies m`mem
      ensures pages.Valid()
      ensures m.mem == SetWord(old(m.mem), s, k, w)
    {
      SlotWord(m.kernelBase, s, k, |m.mem|);
      pages.StoreWord(va + 8 * k, w, s.frame, 4 * s.idx + k);
    }

    method StoreLink(va: nat, w: Word, ghost f: nat)
      requires pages.m == m && pages.Valid() && f < |m.mem|
      requires va == PageVa(m.kernelBase, f) && f !in pages.pool.bitmaps
      modifies m`mem
      ensures pages.Valid()
      ensures m.mem == SetLink(old(m.mem), f, w)
    {
      LinkWord(m.kernelBase, f, |m.mem|);
      pages.StoreWord(va + 8 * LINK_WORD, w, f, LINK_WORD);
    }

    /** Links a new page behind the last one, or makes it the head. */
    method LinkPage(last: nat, page: nat, ghost f: nat)
      requires pages.m == m && pages.Valid() && f < |m.mem| && f !in pages.pool.bitmaps
      requires page == PageVa(m.kernelBase, f) < ADDRESS_SPACE
      requires |chain| > 0 ==> chain[|chain| - 1] < |m.mem| && chain[|chain| - 1] !in pages.pool.bitmaps
      requires |chain| > 0 ==> last == PageVa(m.kernelBase, chain[|chain| - 1]) > 0
      requires |chain| == 0 ==> last == 0
      modifies `kallocPageHead, m`mem
      ensures pages.Valid()
      ensures |chain| == 0 ==> m.mem == SetLink(old(m.mem), f, 0) && kallocPageHead == page
      ensures |chain| > 0 ==>
                && m.mem == SetLink(SetLink(old(m.mem), chain[|chain| - 1], page), f, 0)
                && kallocPageHead == old(kallocPageHead)
    {
      if last == 0 {
        kallocPageHead := page;
      } else {
        StoreLink(last, page, chain[|chain| - 1]);
      }
      StoreLink(page, 0, f);
    }

    /** Allocates a management page and makes it the last (or first) of the chain. */
    method GrowChain(last: nat, ghost slots: set<Slot>) returns (page: nat, ghost f: nat)
      requires Shape(slots)
      requires last == if |chain| == 0 then 0 else PageVa(m.kernelBase, chain[|chain| - 1])
      modifies `kallocPageHead, `chain, pages`regions, pages`pool, m`mem
      ensures Shape(slots)
      ensures page == 0 ==>
                && m.mem == old(m.mem) && pages.regions == old(pages.regions) && pages.pool == old(pages.pool)
                && chain == old(chain) && NoFit(pages.regions, 1)
      ensures page != 0 ==> page == PageVa(m.kernelBase, f)
      ensures page != 0 ==> Grown(old(chain), live, old(pages.pool), old(m.mem), chain, pages.pool, m.mem, f)
      ensures page != 0 ==> OneTaken(old(pages.regions), pages.regions) && chain == old(chain) + [f]
    {
      hide HeapStored, Owns, Inv, Grown, NewPage, NoFit, OneTaken;
      ghost var chain0, p0, mem0, head0 := chain, pages.pool, m.mem, kallocPageHead;
      page, f := AllocManagementPage();
      if page == 0 {
        return;
      }
      ghost var mem1 := m.mem;
      ReadyToGrow(mem0, p0, m.kernelBase, head0, allocatedHead, chain0, live, slots, mem1, pages.pool, f);
      LinkPage(last, page, f);
      chain := chain0 + [f];
      GrownChain(mem0, p0, m.kernelBase, head0, allocatedHead, chain0, live, slots, mem1, pages.pool, f);
    }

    /** Gives the heap its first management page. */
    method EnsureHead() returns (ok: bool)
      requires Shape(LiveSlots(live))
      modifies `kallocPageHead, `chain, pages`regions, pages`pool, m`mem
      ensures Shape(LiveSlots(live))
      ensures !ok ==> m.mem == old(m.mem) && pages.pool == old(pages.pool) && chain == old(chain)
      ensures !ok ==> NoFit(pages.regions, 1) && |chain| == 0 && pages.regions == old(pages.regions)
      ensures ok ==> Extended(old(chain), live, old(pages.pool), old(m.mem), chain, pages.pool, m.mem)
      ensures ok ==> if |old(chain)| == 0 then |chain| > 0 && OneTaken(old(pages.regions), pages.regions)
                     else chain == old(chain) && pages.regions == old(pages.regions)
    {
      hide HeapStored, Owns, Inv, Grown, NoFit, Extended, AllFull, OneTaken;
      ghost var chain0, p0, mem0, slots := chain, pages.pool, m.mem, LiveSlots(live);
      HeapFacts(mem0, m.kernelBase, kallocPageHead, allocatedHead, chain0, live, slots);
      if kallocPageHead != 0 {
        ExtendedSame(chain0, live, p0, mem0);
        return true;
      }
      var page, f := GrowChain(0, slots);
      if page == 0 {
        return false;
      }
      ExtendedEmpty(chain0, live, p0, mem0, chain, pages.pool, m.mem, f);
      return true;
    }

    /** find_free_management_block: reserves a descriptor, growing the chain when all are in use. */
    method FindFreeManagementBlock() returns (block: nat, ghost s: Slot)
      requires Shape(LiveSlots(live))
      modifies `kallocPageHead, `chain, pages`regions, pages`pool, m`mem
      ensures block == 0 ==>
                && Shape(LiveSlots(live)) && m.mem == old(m.mem) && pages.pool == old(pages.pool) && chain == old(chain)
                && NoFit(pages.regions, 1) && AllFull(chain, LiveSlots(live)) && pages.regions == old(pages.regions)
      ensures block != 0 ==> DescriptorReady(old(chain), live, old(pages.regions), pages.regions)
      ensures block != 0 ==> Shape(LiveSlots(live) + {s})
      ensures block != 0 ==> block == SlotVa(m.kernelBase, s) && s !in LiveSlots(live)
      ensures block != 0 ==>
                SlotReserved(old(chain), live, old(pages.pool), old(m.mem), chain, pages.pool, m.mem, s)
    {
      hide HeapStored, Owns, Inv, Grown, NoFit, SlotReserved, Extended, AllFull, OneTaken;
      ghost var chain0, p0, mem0, rs0, slots := chain, pages.pool, m.mem, pages.regions, LiveSlots(live);
      NoneToFill(slots);
      s := Slot(0, 0);
      HeapFacts(mem0, m.kernelBase, kallocPageHead, allocatedHead, chain0, live, slots);
      var ok := EnsureHead();
      if !ok {
        return 0, s;
      }
      HeapFacts(m.mem, m.kernelBase, kallocPageHead, allocatedHead, chain, live, slots);
      var last;
      block, last, s := ScanChain(slots);
      if block == 0 {
        StillSame(chain0, live, p0, mem0, chain, pages.pool, m.mem);
        var page, f := GrowChain(last, slots);
        if page == 0 {
          return 0, s;
        }
        block, s := page, Slot(f, 0);
        ExtendedFull(chain0, live, p0, mem0, chain, pages.pool, m.mem, f);
      }
      FullIff(chain0, slots, s);
      ghost var mem1 := m.mem;
      ReadyToReserve(mem1, m.kernelBase, kallocPageHead, allocatedHead, chain, live, s, pages.pool);
      StoreField(block, 2, 1, s);
      FlagSet(mem1, m.kernelBase, kallocPageHead, allocatedHead, chain, live, slots, s);
      Reserved(chain0, live, p0, mem0, chain, pages.pool, mem1, m.mem, s);
    }

    /** add_to_allocated_list: walks to the end of the list and links the descriptor there. */
    method AddToAllocatedList(block: nat, ghost e: Entry, ghost slots: set<Slot>)
      requires Shape(slots) && e.slot in slots && e.slot !in LiveSlots(live)
      requires block == SlotVa(m.kernelBase, e.slot)
      requires EntryFilled(m.mem, m.kernelBase, e)
      requires Owns(chain, live + [e], pages.pool)
      modifies `allocatedHead, `live, m`mem
      ensures Shape(slots)
      ensures live == old(live) + [e]
      ensures SameOutside(old(m.mem), m.mem, Members(chain))
    {
      hide HeapStored, Owns, Inv, EntryStored;
      ghost var live0, base, mem0 := live, m.kernelBase, m.mem;
      ReadyToLink(mem0, base, kallocPageHead, allocatedHead, chain, live, slots, e, pages.pool);
      StoreField(block, 3, 0, e.slot);
      Filled(mem0, base, kallocPageHead, allocatedHead, chain, live, slots, e);
      ghost var mem1 := m.mem;
      EntryJoins(mem1, base, kallocPageHead, allocatedHead, chain, live, slots, e);
      if allocatedHead == 0 {
        allocatedHead := block;
      } else {
        var last := FindLast(slots);
        StoreField(last, 3, block, live[|live| - 1].slot);
      }
      live := live0 + [e];
      LinkedOutside(mem0, mem1, m.mem, chain, slots, live0, e);
    }

    /** The walk of add_to_allocated_list. */
    method FindLast(ghost slots: set<Slot>) returns (current: nat)
      requires m.Valid() && ListOk(m.mem, m.kernelBase, allocatedHead, live) && |live| > 0
      ensures current == SlotVa(m.kernelBase, live[|live| - 1].slot)
    {
      current := allocatedHead;
      ghost var i := 0;
      var next := NextOf(current, i);
      while next != 0
        invariant i < |live| && current == SlotVa(m.kernelBase, live[i].slot)
        invariant next == EntryLink(m.kernelBase, live, i + 1)
        decreases |live| - i
      {
        current := next;
        i := i + 1;
        next := NextOf(current, i);
      }
    }

    method NextOf(va: nat, ghost i: nat) returns (next: nat)
      requires m.Valid() && ListOk(m.mem, m.kernelBase, allocatedHead, live) && i < |live|
      requires va == SlotVa(m.kernelBase, live[i].slot)
      ensures next == EntryLink(m.kernelBase, live, i + 1)
      ensures next == 0 <==> i + 1 == |live|
    {
      hide ListOk;
      EntryFacts(m.mem, m.kernelBase, allocatedHead, live, i);
      next := LoadField(va, 3, live[i].slot);
    }

    /** kmalloc */
    method Kmalloc(size: nat) returns (ptr: nat)
      requires Valid() && size <= SIZE_MAX
      modifies this, pages`regions, pages`pool, m`mem
      ensures Valid()
      ensures KmallocFit(m.kernelBase, old(chain), old(live), old(pages.regions), pages.regions, size, ptr)
      ensures size > 0xFFFF_FFFF_FFFF_F000 ==> ptr == 0
      ensures ptr == 0 ==>
                BlockDenied(old(chain), old(live), old(pages.pool), old(m.mem), chain, live, pages.pool, m.mem)
      ensures ptr != 0 ==>
                BlockGranted(m.kernelBase, old(chain), old(live), old(pages.pool), old(m.mem), chain, live, pages.pool,
                             m.mem, size, ptr)
      ensures FirstsDistinct(old(live)) && FirstsDistinct(live)
      ensures ptr != 0 ==> ptr !in Blocks(m.kernelBase, old(live))
      ensures Blocks(m.kernelBase, live) ==
              if ptr == 0 then Blocks(m.kernelBase, old(live)) else Blocks(m.kernelBase, old(live))[ptr := size]
    {
      hide HeapStored, Owns, Inv, NoFit, SlotReserved, BlockDenied, BlockGranted, AtMostOneEmpty, FramesTaken,
           PagesTaken, FirstsDistinct, Blocks, DescriptorReady, AllFull, FitMarked, NumPages, BlockFit;
      ghost var chain0, live0, p0, mem0, rs0 := chain, live, pages.pool, m.mem, pages.regions;
      OwnedFirstsDistinct(chain0, live0, p0);
      DeniedSame(chain0, live0, p0, mem0);
      ptr := 0;
      if size == 0 {
        return;
      }
      if size > SIZE_MAX - (PAGE_SIZE - 1) {
        return;
      }
      var block, s := FindFreeManagementBlock();
      var pages' := NumPages(size);
      if block == 0 {
        return;
      }
      ghost var p1, mem1, rs1 := pages.pool, m.mem, pages.regions;
      DescriptorFound(chain0, live0, rs0, rs1);
      PoolFacts(mem1, m.kernelBase, pages.chunks, pages.regions, p1);
      var pa := pages.PageAlloc(pages');
      SomePages(size);
      if pa == PHYS_ADDR_NULL {
        ReleaseBlock(block, s);
        FitHere(m.kernelBase, chain0, live0, rs0, rs1, pages.regions, size, pa, 0);
        DeniedAfter(chain0, live0, p0, mem0, chain, p1, mem1, m.mem, s);
        return;
      }
      ghost var mem2 := m.mem;
      TakenFit(rs1, p1, mem1, pages.regions, pages.pool, mem2, pages', pa);
      ptr := FillBlock(block, s, size, pa, p1, mem1);
      FitHere(m.kernelBase, chain0, live0, rs0, rs1, pages.regions, size, pa, ptr);
      GrantedAfter(m.kernelBase, chain0, live0, p0, mem0, chain, p1, mem1, s, live, pages.pool, mem2, m.mem, pa, size);
      OwnedFirstsDistinct(chain, live, pages.pool);
      BlocksAppend(m.kernelBase, live0, live[|live| - 1]);
    }

    /** Gives back the reserved descriptor when no pages were found. */
    method ReleaseBlock(block: nat, ghost s: Slot)
      requires Shape(LiveSlots(live) + {s}) && s !in LiveSlots(live) && block == SlotVa(m.kernelBase, s)
      modifies m`mem
      ensures Shape(LiveSlots(live))
      ensures SameOutside(old(m.mem), m.mem, Members(chain))
    {
      hide HeapStored, Owns, Inv;
      ghost var mem0, slots := m.mem, LiveSlots(live) + {s};
      SlotFacts(mem0, m.kernelBase, kallocPageHead, allocatedHead, chain, live, slots, s, pages.pool);
      StoreField(block, 2, 0, s);
      FlagCleared(mem0, m.kernelBase, kallocPageHead, allocatedHead, chain, live, slots, s);
      assert slots - {s} == LiveSlots(live);
    }

    /** Records the pages found in the descriptor and puts it on the list. */
    method FillBlock(block: nat, ghost s: Slot, size: nat, pa: nat, ghost p1: Pool, ghost mem1: Mem) returns (ptr: nat)
      requires pages.m == m && pages.Valid() && 0 < size <= SIZE_MAX - (PAGE_SIZE - 1)
      requires s !in LiveSlots(live) && block == SlotVa(m.kernelBase, s)
      requires |mem1| <= MAX_FRAMES
      requires HeapStored(mem1, m.kernelBase, kallocPageHead, allocatedHead, chain, live, LiveSlots(live) + {s})
      requires Owns(chain, live, p1) && p1.bitmaps <= p1.used
               && FramesTaken(p1, mem1, pages.pool, m.mem, NumPages(size), pa)
      modifies `allocatedHead, `live, m`mem
      ensures Shape(LiveSlots(live))
      ensures live == old(live) + [Entry(s, pa / PAGE_SIZE, size)]
      ensures ptr == PageVa(m.kernelBase, pa / PAGE_SIZE) > 0
      ensures Rest(pages.pool, chain, live) == Rest(p1, chain, old(live))
      ensures SameOutside(mem1, m.mem, p1.bitmaps + Members(chain))
    {
      hide HeapStored, Owns, Inv, FramesTaken, EntryFilled;
      ghost var slots, e, mem2 := LiveSlots(live) + {s}, Entry(s, pa / PAGE_SIZE, size), m.mem;
      ReadyToFill(mem1, mem2, m.kernelBase, kallocPageHead, allocatedHead, chain, live, slots, p1, pages.pool, e, pa);
      ptr := PaToVa(m.kernelBase, pa);
      StoreField(block, 0, ptr, s);
      FieldStored(mem2, m.kernelBase, kallocPageHead, allocatedHead, chain, live, slots, s, 0, ptr);
      ghost var mem3 := m.mem;
      StoreField(block, 1, size, s);
      FieldStored(mem3, m.kernelBase, kallocPageHead, allocatedHead, chain, live, slots, s, 1, size);
      FilledIn(mem2, m.kernelBase, e, ptr, size);
      ghost var mem4 := m.mem;
      AddToAllocatedList(block, e, slots);
      LiveSlotsAppend(old(live), e);
      OutsideChain(mem1, mem2, mem3, mem4, m.mem, p1, chain, s);
    }

    /** The search of remove_from_allocated_list. */
    method FindEntry(ptr: nat) returns (current: nat, prev: nat, ghost i: nat)
      requires m.Valid() && ListOk(m.mem, m.kernelBase, allocatedHead, live)
      ensures current == 0 ==> forall j: nat :: j < |live| ==> PageVa(m.kernelBase, live[j].first) != ptr
      ensures current != 0 ==>
                && i < |live| && PageVa(m.kernelBase, live[i].first) == ptr
                && current == SlotVa(m.kernelBase, live[i].slot)
                && prev == if i == 0 then 0 else SlotVa(m.kernelBase, live[i - 1].slot)
    {
      hide ListOk;
      current, prev, i := allocatedHead, 0, 0;
      HeadFacts(m.mem, m.kernelBase, allocatedHead, live);
      while current != 0
        invariant i <= |live| && current == EntryLink(m.kernelBase, live, i)
        invariant current == 0 ==> i == |live|
        invariant prev == if i == 0 then 0 else SlotVa(m.kernelBase, live[i - 1].slot)
        invariant forall j: nat :: j < i ==> PageVa(m.kernelBase, live[j].first) != ptr
        decreases |live| - i
      {
        EntryFacts(m.mem, m.kernelBase, allocatedHead, live, i);
        var p := LoadField(current, 0, live[i].slot);
        if p == ptr {
          return;
        }
        prev := current;
        current := LoadField(current, 3, live[i].slot);
        i := i + 1;
      }
    }

    /** remove_from_allocated_list: unlinks the descriptor of `ptr` and marks it free. */
    method RemoveFromAllocatedList(ptr: nat) returns (block: nat, ghost i: nat)
      requires Shape(LiveSlots(live))
      modifies `allocatedHead, `live, m`mem
      ensures Shape(LiveSlots(live))
      ensures block == 0 ==>
                && m.mem == old(m.mem) && live == old(live)
                && (ptr == 0 || forall j: nat :: j < |live| ==> PageVa(m.kernelBase, live[j].first) != ptr)
      ensures block != 0 ==>
                EntryRemoved(m.kernelBase, chain, old(live), old(m.mem), live, m.mem, i, ptr, block)
    {
      hide HeapStored, Owns, Inv, EntryRemoved;
      block, i := 0, 0;
      ListFacts(m.mem, m.kernelBase, kallocPageHead, allocatedHead, chain, live, LiveSlots(live));
      if ptr == 0 || allocatedHead == 0 {
        return;
      }
      var current, prev;
      current, prev, i := FindEntry(ptr);
      if current == 0 {
        return 0, i;
      }
      UnlinkEntry(current, prev, i, ptr);
      block := current;
    }

    /** Takes a found descriptor off the list and clears its in-use flag. */
    method UnlinkEntry(current: nat, prev: nat, ghost i: nat, ghost ptr: nat)
      requires Shape(LiveSlots(live)) && i < |live| && ptr == PageVa(m.kernelBase, live[i].first)
      requires current == SlotVa(m.kernelBase, live[i].slot)
      requires prev == if i == 0 then 0 else SlotVa(m.kernelBase, live[i - 1].slot)
      modifies `allocatedHead, `live, m`mem
      ensures Shape(LiveSlots(live))
      ensures EntryRemoved(m.kernelBase, chain, old(live), old(m.mem), live, m.mem, i, ptr, current)
    {
      hide HeapStored, Owns, Inv, EntryRemoved, ListOk, EntryFilled;
      ghost var live0, base, mem0, slots := live, m.kernelBase, m.mem, LiveSlots(live);
      RemovalFacts(mem0, base, kallocPageHead, allocatedHead, chain, live, slots, i, pages.pool);
      ghost var e := live[i];
      var next := LoadField(current, 3, e.slot);
      if prev == 0 {
        FirstEntryLeaves(mem0, base, kallocPageHead, allocatedHead, chain, live, slots);
        allocatedHead := next;
      } else {
        EntryLeaves(mem0, base, kallocPageHead, allocatedHead, chain, live, slots, i);
        StoreField(prev, 3, next, live0[i - 1].slot);
      }
      live := Without(live0, i);
      ghost var mem1 := m.mem;
      LiveSlotsWithout(live0, i);
      StoreField(current, 2, 0, e.slot);
      FlagCleared(mem1, base, kallocPageHead, allocatedHead, chain, live, slots, e.slot);
      Removal(base, chain, live0, mem0, mem1, m.mem, i, ptr, current, next);
      RemovalOwns(chain, live0, pages.pool, i);
    }

    /** Whether no descriptor of a management page is in use. */
    method PageIsEmpty(va: nat, ghost f: nat, ghost slots: set<Slot>) returns (empty: bool)
      requires m.Valid() && SlotsOk(m.mem, chain, slots) && f in chain && va == PageVa(m.kernelBase, f)
      ensures empty <==> forall s :: s in slots ==> s.frame != f
    {
      PageLayout();
      var idx := 0;
      while idx < SLOTS_PER_PAGE
        invariant idx <= 127
        invariant forall i: nat :: i < idx ==> Slot(f, i) !in slots
      {
        var used := LoadField(va + 32 * idx, 2, Slot(f, idx));
        assert InUse(m.mem, Slot(f, idx)) <==> used != 0;
        if used != 0 {
          assert Slot(f, idx) in slots;
          return false;
        }
        idx := idx + 1;
      }
      assert forall s :: s in slots && s.frame == f ==> s == Slot(f, s.idx);
      return true;
    }

    /** The search of free_management_page_if_empty for the page and its predecessor. */
    method FindPage(pageAddr: nat, ghost f: nat) returns (prev: nat, ghost k: nat)
      requires m.Valid() && ChainOk(m.mem, m.kernelBase, kallocPageHead, chain)
      requires f in chain && pageAddr == PageVa(m.kernelBase, f)
      ensures k < |chain| && chain[k] == f
      ensures prev == PageVa(m.kernelBase, chain[if k == 0 then 0 else k - 1])
    {
      hide ChainOk;
      ghost var at: nat :| at < |chain| && chain[at] == f;
      ChainStart(m.mem, m.kernelBase, kallocPageHead, chain);
      var current := kallocPageHead;
      prev, k := kallocPageHead, 0;
      while current != pageAddr
        invariant k <= at && current == PageVa(m.kernelBase, chain[k])
        invariant prev == PageVa(m.kernelBase, chain[if k == 0 then 0 else k - 1])
        decreases at - k
      {
        ChainStep(m.mem, m.kernelBase, kallocPageHead, chain, k);
        prev := current;
        current := LoadLink(current, chain[k]);
        k := k + 1;
      }
    }

    /** free_management_page_if_empty: masks the descriptor's address down to its page and,
      if nothing there is in use, unlinks the page and returns it to the page allocator. */
    method FreeManagementPageIfEmpty(removed: nat, ghost s: Slot)
      requires Shape(LiveSlots(live)) && s.frame in chain && s.idx < 127 && removed == SlotVa(m.kernelBase, s)
      modifies `kallocPageHead, `chain, pages`regions, pages`pool, m`mem
      ensures Shape(LiveSlots(live))
      ensures PageReclaimed(old(chain), live, old(pages.pool), old(m.mem), chain, pages.pool, m.mem, s.frame)
    {
      hide HeapStored, Owns, Inv, PageReclaimed, FramesReturned, PagesReturned;
      ghost var chain0, p0, mem0, base, slots := chain, pages.pool, m.mem, m.kernelBase, LiveSlots(live);
      MaskedSlot(base, s);
      HeapFacts(mem0, base, kallocPageHead, allocatedHead, chain, live, slots);
      var pageAddr := removed - removed % PAGE_SIZE;
      var prev, k := FindPage(pageAddr, s.frame);
      var empty := PageIsEmpty(pageAddr, s.frame, slots);
      if !empty {
        KeptPage(chain0, live, p0, mem0, s.frame);
        return;
      }
      UnlinkPage(pageAddr, prev, k);
      ghost var mem1 := m.mem;
      PageFreeable(chain0, live, p0, base, k, |mem1|);
      pages.PageFree(VaToPa(m.kernelBase, pageAddr), 1);
      Reclaimed(mem0, mem1, m.mem, base, kallocPageHead, allocatedHead, chain0, live, slots, p0, pages.pool, k);
    }

    /** Takes an empty page out of the chain. */
    method UnlinkPage(current: nat, prev: nat, ghost k: nat)
      requires Shape(LiveSlots(live)) && k < |chain| && current == PageVa(m.kernelBase, chain[k])
      requires prev == PageVa(m.kernelBase, chain[if k == 0 then 0 else k - 1])
      requires forall s :: s in LiveSlots(live) ==> s.frame != chain[k]
      modifies `kallocPageHead, `chain, m`mem
      ensures pages.Valid()
      ensures HeapStored(m.mem, m.kernelBase, kallocPageHead, allocatedHead, chain, live, LiveSlots(live))
      ensures chain == Without(old(chain), k)
      ensures SameOutside(old(m.mem), m.mem, Members(chain))
    {
      hide HeapStored, Owns, Inv;
      ghost var chain0, mem0, base, slots := chain, m.mem, m.kernelBase, LiveSlots(live);
      LinkFacts(mem0, base, kallocPageHead, allocatedHead, chain, live, slots, pages.pool, k);
      var next := LoadLink(current, chain[k]);
      if prev == current {
        FirstPageLeaves(mem0, base, kallocPageHead, allocatedHead, chain, live, slots);
        kallocPageHead := next;
      } else {
        PageLeaves(mem0, base, kallocPageHead, allocatedHead, chain, live, slots, k);
        StoreLink(prev, next, chain0[k - 1]);
      }
      chain := Without(chain0, k);
    }

    /** kfree */
    method Kfree(ptr: nat)
      requires Valid()
      modifies this, pages`regions, pages`pool, m`mem
      ensures Valid()
      ensures FirstsDistinct(old(live)) && FirstsDistinct(live)
      ensures Blocks(m.kernelBase, live) == Blocks(m.kernelBase, old(live)) - {ptr}
      ensures ptr !in Blocks(m.kernelBase, old(live)) ==>
                && m.mem == old(m.mem) && chain == old(chain) && live == old(live)
                && pages.pool == old(pages.pool) && pages.regions == old(pages.regions)
      ensures ptr in Blocks(m.kernelBase, old(live)) ==>
                BlockFreed(m.kernelBase, old(chain), old(live), old(pages.pool), old(m.mem), chain, live, pages.pool,
                           m.mem, ptr)
      ensures 0 !in Blocks(m.kernelBase, old(live))
    {
      hide HeapStored, Inv, EntryRemoved, AtMostOneEmpty, PageReclaimed, BlockFreed, FirstsDistinct, Blocks,
           PagesReturned, FramesReturned, Owns;
      ghost var chain0, live0, p0, mem0, base := chain, live, pages.pool, m.mem, m.kernelBase;
      OwnedFirstsDistinct(chain0, live0, p0);
      NullIsNoBlock(base, chain0, live0, p0);
      var block, i := RemoveFromAllocatedList(ptr);
      if block == 0 {
        NotABlock(base, live0, ptr);
        return;
      }
      ghost var mem1 := m.mem;
      UsedInRam(mem1, base, pages.chunks, pages.regions, p0);
      FreeFacts(base, chain0, live0, p0, mem0, live, mem1, i, ptr, block);
      ghost var s := live0[i].slot;
      var ptr' := LoadField(block, 0, s);
      var size := LoadField(block, 1, s);
      pages.PageFree(VaToPa(m.kernelBase, ptr'), NumPages(size));
      BlockReturned(base, mem1, m.mem, kallocPageHead, allocatedHead, chain0, live0, p0, pages.pool, i);
      ghost var p1, mem2 := pages.pool, m.mem;
      FreeManagementPageIfEmpty(block, s);
      Freed(base, chain0, live0, p0, mem0, mem1, p1, mem2, live, chain, pages.pool, m.mem, i, ptr, block);
      BlocksWithout(base, live0, i);
    }
  }

  lemma LinkFacts(mem: Mem, base: nat, head: nat, first: nat, chain: seq<nat>, live: seq<Entry>, slots: set<Slot>,
                  p: Pool, k: nat)
    requires HeapStored(mem, base, head, first, chain, live, slots) && Owns(chain, live, p) && k < |chain|
    requires |mem| <= MAX_FRAMES && (base == 0 || base == KERNEL_BASE)
    ensures chain[k] < |mem| && NextPageAt(mem, chain[k]) == ChainLink(base, chain, k + 1) < ADDRESS_SPACE
    ensures k > 0 ==>
              chain[k - 1] < |mem| && chain[k - 1] !in p.bitmaps && PageVa(base, chain[k - 1]) != PageVa(base, chain[k])
    ensures k > 0 ==> chain[k - 1] in Members(Without(chain, k))
  {
    OwnedPages(chain, live, p);
    if k > 0 {
      assert chain[k - 1] in Members(chain) && chain[k - 1] != chain[k];
      assert Without(chain, k)[k - 1] == chain[k - 1];
    }
  }

  /** The page of the freed descriptor is gone if it was empty, and nothing changed otherwise. */
  ghost predicate PageReclaimed(chain: seq<nat>, live: seq<Entry>, p: Pool, mem: Mem, chain': seq<nat>, p': Pool,
                                mem': Mem, f: nat)
  {
    && Rest(p', chain', live) == Rest(p, chain, live)
    && SameOutside(mem, mem', p.bitmaps + Members(chain))
    && if EmptyPage(live, f)
       then f !in chain' && (forall g :: g in chain' <==> g in chain && g != f) && p' == p.(used := p.used - {f})
       else chain' == chain && p' == p && mem' == mem
  }

  lemma EmptyIffNoSlot(live: seq<Entry>, f: nat)
    ensures EmptyPage(live, f) <==> forall s :: s in LiveSlots(live) ==> s.frame != f
  {
    if EmptyPage(live, f) {
      forall s | s in LiveSlots(live)
        ensures s.frame != f
      {
        var i: nat :| i < |live| && live[i].slot == s;
      }
    } else {
      var i: nat :| i < |live| && live[i].slot.frame == f;
      assert live[i].slot in LiveSlots(live);
    }
  }

  lemma KeptPage(chain: seq<nat>, live: seq<Entry>, p: Pool, mem: Mem, f: nat)
    requires !(forall s :: s in LiveSlots(live) ==> s.frame != f)
    ensures PageReclaimed(chain, live, p, mem, chain, p, mem, f)
  {
    EmptyIffNoSlot(live, f);
  }

  lemma PageFreeable(chain: seq<nat>, live: seq<Entry>, p: Pool, base: nat, k: nat, frames: nat)
    requires Owns(chain, live, p) && k < |chain| && chain[k] < frames <= MAX_FRAMES
    requires base == 0 || base == KERNEL_BASE
    ensures var pa := VaToPa(base, PageVa(base, chain[k]));
            && pa + 1 * PAGE_SIZE < ADDRESS_SPACE && pa / PAGE_SIZE == chain[k]
            && Run(pa / PAGE_SIZE, 1) !! p.bitmaps && p.Within(pa / PAGE_SIZE, 1)
  {
    PageVaFits(base, chain[k]);
    assert PageOwned(chain[k], p);
    OneFrame(chain[k]);
  }

  lemma Reclaimed(mem0: Mem, mem1: Mem, mem2: Mem, base: nat, head: nat, first: nat, chain: seq<nat>, live: seq<Entry>,
                  slots: set<Slot>, p: Pool, p': Pool, k: nat)
    requires Owns(chain, live, p) && k < |chain| && Distinct(chain) && slots == LiveSlots(live)
    requires HeapStored(mem1, base, head, first, Without(chain, k), live, slots)
    requires forall s :: s in slots ==> s.frame != chain[k]
    requires SameOutside(mem0, mem1, Members(Without(chain, k)))
    requires FramesReturned(p, mem1, p', mem2, chain[k], 1)
    ensures HeapStored(mem2, base, head, first, Without(chain, k), live, slots)
    ensures Owns(Without(chain, k), live, p')
    ensures PageReclaimed(chain, live, p, mem0, Without(chain, k), p', mem2, chain[k])
  {
    var chain' := Without(chain, k);
    OneFrame(chain[k]);
    LosePage(chain, live, p, k);
    MembersWithout(chain, k);
    OwnedPages(chain, live, p);
    assert Members(chain') <= Members(chain);
    HeapElsewhere(mem1, mem2, base, head, first, chain', live, slots, p.bitmaps);
    EmptyIffNoSlot(live, chain[k]);
  }

  /** One block less: its pages are free again, and its management page too if it was the last. */
  ghost predicate BlockFreed(base: nat, chain: seq<nat>, live: seq<Entry>, p: Pool, mem: Mem,
                             chain': seq<nat>, live': seq<Entry>, p': Pool, mem': Mem, ptr: nat)
  {
    && (exists i: nat :: && i < |live| && ptr == PageVa(base, live[i].first) && live' == Without(live, i)
                         && live[i].Frames() !! p'.used)
    && Rest(p', chain', live') == Rest(p, chain, live)
    && p'.managed == p.managed && p'.bitmaps == p.bitmaps && p'.used <= p.used
    && (NoneEmpty(chain, live) ==> NoneEmpty(chain', live'))
    && SameOutside(mem, mem', p.bitmaps + Members(chain))
  }

  lemma UsedInRam(mem: Mem, base: nat, chunks: seq<Chunk>, regions: seq<Region>, p: Pool)
    requires Inv(mem, base, chunks, regions, p)
    ensures forall f :: f in p.managed ==> f < |mem|
    ensures forall f :: f in p.used ==> f < |mem|
  {
    forall f | f in p.managed
      ensures f < |mem|
    {
      var k: nat :| k < |regions| && regions[k].Holds(f);
      assert ChunkStored(mem, base, chunks[k], regions[k]);
    }
  }

  lemma NullIsNoBlock(base: nat, chain: seq<nat>, live: seq<Entry>, p: Pool)
    requires Owns(chain, live, p) && FirstsDistinct(live)
    ensures 0 !in Blocks(base, live)
  {
    forall e | e in live
      ensures PageVa(base, e.first) != 0
    {
      var i: nat :| i < |live| && live[i] == e;
      assert EntryOwned(live[i], p);
    }
  }

  lemma NotABlock(base: nat, live: seq<Entry>, ptr: nat)
    requires FirstsDistinct(live) && 0 !in Blocks(base, live)
    requires ptr == 0 || forall j: nat :: j < |live| ==> PageVa(base, live[j].first) != ptr
    ensures ptr !in Blocks(base, live) && Blocks(base, live) - {ptr} == Blocks(base, live)
  {
  }

  lemma FreeFacts(base: nat, chain: seq<nat>, live: seq<Entry>, p: Pool, mem0: Mem, live': seq<Entry>, mem1: Mem,
                  i: nat, ptr: nat, block: nat)
    requires EntryRemoved(base, chain, live, mem0, live', mem1, i, ptr, block) && Owns(chain, live, p)
             && FirstsDistinct(live)
    requires base == 0 || base == KERNEL_BASE
    requires |mem1| <= MAX_FRAMES && forall f :: f in p.used ==> f < |mem1|
    ensures i < |live| && live' == Without(live, i) && ptr == PageVa(base, live[i].first)
            && block == SlotVa(base, live[i].slot)
    ensures live[i].slot.frame < |mem1| && live[i].slot.idx < 127 && live[i].slot.frame in chain
    ensures PtrAt(mem1, live[i].slot) == ptr && SizeAt(mem1, live[i].slot) == live[i].size
    ensures ptr in Blocks(base, live)
    ensures var e := live[i];
            && VaToPa(base, ptr) == e.first * PAGE_SIZE && VaToPa(base, ptr) / PAGE_SIZE == e.first
            && e.first * PAGE_SIZE + e.Pages() * PAGE_SIZE < ADDRESS_SPACE
            && Run(e.first, e.Pages()) !! p.bitmaps && p.Within(e.first, e.Pages()) && e.Pages() > 0
  {
    var e := live[i];
    assert EntryOwned(e, p);
    assert e in live;
    assert e.first + e.Pages() - 1 in e.Frames();
    assert e.first in e.Frames();
    PageVaFits(base, e.first);
  }

  lemma BlockReturned(base: nat, mem1: Mem, mem2: Mem, head: nat, first: nat, chain: seq<nat>, live: seq<Entry>,
                      p: Pool, p': Pool, i: nat)
    requires Owns(chain, live, p) && i < |live|
    requires HeapStored(mem1, base, head, first, chain, Without(live, i), LiveSlots(Without(live, i)))
    requires FramesReturned(p, mem1, p', mem2, live[i].first, live[i].Pages())
    ensures HeapStored(mem2, base, head, first, chain, Without(live, i), LiveSlots(Without(live, i)))
    ensures Owns(chain, Without(live, i), p')
  {
    LoseBlock(chain, live, p, i);
    OwnedPages(chain, live, p);
    HeapElsewhere(mem1, mem2, base, head, first, chain, Without(live, i), LiveSlots(Without(live, i)), p.bitmaps);
  }

  lemma Freed(base: nat, chain: seq<nat>, live: seq<Entry>, p: Pool, mem0: Mem, mem1: Mem, p1: Pool, mem2: Mem,
              live': seq<Entry>, chain': seq<nat>, p': Pool, mem3: Mem, i: nat, ptr: nat, block: nat)
    requires EntryRemoved(base, chain, live, mem0, live', mem1, i, ptr, block) && Owns(chain, live, p)
    requires AtMostOneEmpty(chain, live)
    requires FramesReturned(p, mem1, p1, mem2, live[i].first, live[i].Pages())
    requires PageReclaimed(chain, live', p1, mem2, chain', p', mem3, live[i].slot.frame)
    ensures BlockFreed(base, chain, live, p, mem0, chain', live', p', mem3, ptr)
    ensures AtMostOneEmpty(chain', live')
  {
    LoseBlock(chain, live, p, i);
    EmptyAfterFree(chain, live, chain', live', i);
    assert live[i].Frames() !! p'.used;
  }

  lemma EmptyAfterFree(chain: seq<nat>, live: seq<Entry>, chain': seq<nat>, live': seq<Entry>, i: nat)
    requires i < |live| && live' == Without(live, i) && AtMostOneEmpty(chain, live)
    requires var f := live[i].slot.frame;
             if EmptyPage(live', f) then forall g :: g in chain' <==> g in chain && g != f else chain' == chain
    ensures AtMostOneEmpty(chain', live')
    ensures NoneEmpty(chain, live) ==> NoneEmpty(chain', live')
  {
    forall g | g in chain' && EmptyPage(live', g)
      ensures g in chain && EmptyPage(live, g)
    {
      forall j: nat | j < |live|
        ensures live[j].slot.frame != g
      {
        if j != i {
          assert live'[if j < i then j else j - 1] == live[j];
        }
      }
    }
  }

  /** The address, masked down to its page, is page `f`. */
  ghost predicate LeadsInto(base: nat, w: nat, f: nat) {
    w - w % PAGE_SIZE == PageVa(base, f)
  }

  lemma ChainLinkApart(base: nat, chain: seq<nat>, i: nat, f: nat)
    requires base % PAGE_SIZE == 0 && 0 < f && f !in chain
    ensures !LeadsInto(base, ChainLink(base, chain, i), f)
  {
  }

  lemma EntryLinkApart(base: nat, live: seq<Entry>, i: nat, f: nat)
    requires base % PAGE_SIZE == 0 && 0 < f
    requires i < |live| ==> live[i].slot.idx < 127 && live[i].slot.frame != f
    ensures !LeadsInto(base, EntryLink(base, live, i), f)
  {
    if i < |live| {
      MaskedSlot(base, live[i].slot);
    }
  }

  /** No link of the heap leads into a page that is off the chain. */
  lemma NoPointerInto(mem: Mem, base: nat, head: nat, first: nat, chain: seq<nat>, live: seq<Entry>, slots: set<Slot>,
                      f: nat)
    requires HeapStored(mem, base, head, first, chain, live, slots)
    requires base % PAGE_SIZE == 0 && 0 < f && f !in chain
    ensures !LeadsInto(base, head, f) && !LeadsInto(base, first, f)
    ensures forall i: nat :: i < |chain| ==> !LeadsInto(base, NextPageAt(mem, chain[i]), f)
    ensures forall i: nat :: i < |live| ==>
                          SlotPlaced(mem, live[i].slot) && !LeadsInto(base, NextAt(mem, live[i].slot), f)
  {
    hide LeadsInto;
    ChainLinkApart(base, chain, 0, f);
    forall i: nat | i < |chain|
      ensures !LeadsInto(base, NextPageAt(mem, chain[i]), f)
    {
      ChainLinkApart(base, chain, i + 1, f);
    }
    assert forall i: nat :: i < |live| ==> live[i].slot in slots && live[i].slot.frame in chain;
    EntryLinkApart(base, live, 0, f);
    forall i: nat | i < |live|
      ensures SlotPlaced(mem, live[i].slot) && !LeadsInto(base, NextAt(mem, live[i].slot), f)
    {
      assert EntryStored(mem, base, live[i], EntryLink(base, live, i + 1));
      EntryLinkApart(base, live, i + 1, f);
    }
  }

  lemma HeadFacts(mem: Mem, base: nat, head: nat, live: seq<Entry>)
    requires ListOk(mem, base, head, live)
    ensures head == EntryLink(base, live, 0) && (head == 0 <==> |live| == 0)
  {
    if |live| > 0 {
      assert EntryStored(mem, base, live[0], EntryLink(base, live, 1));
    }
  }

  lemma ListFacts(mem: Mem, base: nat, head: nat, first: nat, chain: seq<nat>, live: seq<Entry>, slots: set<Slot>)
    requires HeapStored(mem, base, head, first, chain, live, slots)
    ensures ListOk(mem, base, first, live) && (first == 0 <==> |live| == 0)
  {
    HeadFacts(mem, base, first, live);
  }

  /** The descriptor is off the list and free, its pointer and size still readable. */
  ghost predicate EntryRemoved(base: nat, chain: seq<nat>, live: seq<Entry>, mem: Mem, live': seq<Entry>, mem': Mem,
                               i: nat, ptr: nat, block: nat)
  {
    && i < |live| && live' == Without(live, i)
    && ptr == PageVa(base, live[i].first) && block == SlotVa(base, live[i].slot)
    && EntryFilled(mem', base, live[i]) && live[i].slot.frame in chain
    && SameOutside(mem, mem', Members(chain))
  }

  lemma RemovalFacts(mem: Mem, base: nat, head: nat, first: nat, chain: seq<nat>, live: seq<Entry>, slots: set<Slot>,
                     i: nat, p: Pool)
    requires HeapStored(mem, base, head, first, chain, live, slots) && i < |live| && Owns(chain, live, p)
    requires |mem| <= MAX_FRAMES && (base == 0 || base == KERNEL_BASE)
    ensures EntryLink(base, live, i + 1) < ADDRESS_SPACE && SlotVa(base, live[i].slot) > 0
    ensures SlotPlaced(mem, live[i].slot) && SlotsDistinct(live)
    ensures EntryFilled(mem, base, live[i]) && NextAt(mem, live[i].slot) == EntryLink(base, live, i + 1)
    ensures live[i].slot in slots && live[i].slot.frame in chain && live[i].slot.frame !in p.bitmaps
    ensures i > 0 ==>
              SlotPlaced(mem, live[i - 1].slot) && live[i - 1].slot.frame !in p.bitmaps
                && live[i - 1].slot.frame in chain
    ensures i > 0 ==> SlotVa(base, live[i - 1].slot) > 0 && live[i - 1].slot != live[i].slot
  {
    OwnedPages(chain, live, p);
    EntryFacts(mem, base, first, live, i);
    assert forall j: nat :: j < |live| ==> live[j].slot in slots && live[j].slot.frame in Members(chain);
    if i > 0 {
      EntryFacts(mem, base, first, live, i - 1);
    }
    if i + 1 < |live| {
      EntryFacts(mem, base, first, live, i + 1);
    }
  }

  lemma Removal(base: nat, chain: seq<nat>, live: seq<Entry>, mem0: Mem, mem1: Mem, mem2: Mem, i: nat, ptr: nat,
                block: nat, w: Word)
    requires i < |live| && ptr == PageVa(base, live[i].first) && block == SlotVa(base, live[i].slot)
    requires EntryFilled(mem0, base, live[i]) && live[i].slot.frame in chain
    requires if i == 0 then mem1 == mem0
             else
               && live[i - 1].slot.frame in chain && SlotPlaced(mem0, live[i - 1].slot)
               && live[i - 1].slot != live[i].slot
    requires i > 0 ==> mem1 == SetWord(mem0, live[i - 1].slot, 3, w)
    requires |mem1| == |mem0| && mem2 == SetWord(mem1, live[i].slot, 2, 0)
    ensures EntryRemoved(base, chain, live, mem0, Without(live, i), mem2, i, ptr, block)
  {
    var s := live[i].slot;
    assert s.frame in Members(chain);
    if i > 0 {
      var t := live[i - 1].slot;
      assert t.frame in Members(chain);
      assert t.frame == s.frame ==> 4 * t.idx + 3 != 4 * s.idx && 4 * t.idx + 3 != 4 * s.idx + 1;
    }
  }

  lemma RemovalOwns(chain: seq<nat>, live: seq<Entry>, p: Pool, i: nat)
    requires Owns(chain, live, p) && i < |live|
    ensures Owns(chain, Without(live, i), p)
  {
    var live' := Without(live, i);
    forall j: nat | j < |live'|
      ensures EntryOwned(live'[j], p)
    {
      assert live'[j] == live[if j < i then j else j + 1];
    }
  }

  lemma PoolFacts(mem: Mem, base: nat, chunks: seq<Chunk>, regions: seq<Region>, p: Pool)
    requires Inv(mem, base, chunks, regions, p)
    ensures p.bitmaps <= p.used <= p.managed
  {
  }

  /** A refused request leaves the blocks alone; an empty management page may have been added. */
  ghost predicate BlockDenied(chain: seq<nat>, live: seq<Entry>, p: Pool, mem: Mem,
                              chain': seq<nat>, live': seq<Entry>, p': Pool, mem': Mem)
  {
    && live' == live
    && (|| (chain' == chain && p' == p)
        || exists f :: chain' == chain + [f] && f !in p.used && p' == p.(used := p.used + {f}))
    && Rest(p', chain', live') == Rest(p, chain, live)
    && SameOutside(mem, mem', p.bitmaps + Members(chain'))
  }

  /** A granted request adds one block, of pages that were free, at the end of the list. */
  ghost predicate BlockGranted(base: nat, chain: seq<nat>, live: seq<Entry>, p: Pool, mem: Mem,
                               chain': seq<nat>, live': seq<Entry>, p': Pool, mem': Mem, size: nat, ptr: nat)
  {
    && |live'| == |live| + 1 && live' == live + [live'[|live|]]
    && (var e := live'[|live|];
        && e.size == size && ptr == PageVa(base, e.first) && e.Frames() <= p.Free())
    && Rest(p', chain', live') == Rest(p, chain, live)
    && p'.managed == p.managed && p'.bitmaps == p.bitmaps
    && (NoneEmpty(chain, live) ==> NoneEmpty(chain', live'))
    && SameOutside(mem, mem', p.bitmaps + Members(chain'))
  }

  lemma DeniedSame(chain: seq<nat>, live: seq<Entry>, p: Pool, mem: Mem)
    ensures BlockDenied(chain, live, p, mem, chain, live, p, mem)
  {
  }

  lemma FullNotEmpty(chain: seq<nat>, live: seq<Entry>)
    requires AllFull(chain, LiveSlots(live))
    ensures NoneEmpty(chain, live)
  {
    forall f | f in chain
      ensures !EmptyPage(live, f)
    {
      var k: nat :| k < |chain| && chain[k] == f;
      assert Slot(chain[k], 0) in LiveSlots(live);
      var i: nat :| i < |live| && live[i].slot == Slot(f, 0);
    }
  }

  lemma DeniedAfter(chain: seq<nat>, live: seq<Entry>, p: Pool, mem: Mem, chain': seq<nat>, p': Pool, mem1: Mem,
                    mem2: Mem, s: Slot)
    requires SlotReserved(chain, live, p, mem, chain', p', mem1, s) && AtMostOneEmpty(chain, live)
    requires SameOutside(mem1, mem2, Members(chain'))
    ensures BlockDenied(chain, live, p, mem, chain', live, p', mem2)
    ensures AtMostOneEmpty(chain', live)
  {
    if chain' != chain || p' != p {
      FullNotEmpty(chain, live);
    }
  }

  lemma SlotFacts(mem: Mem, base: nat, head: nat, first: nat, chain: seq<nat>, live: seq<Entry>, slots: set<Slot>,
                  s: Slot, p: Pool)
    requires HeapStored(mem, base, head, first, chain, live, slots) && s in slots && Owns(chain, live, p)
    ensures s.frame in chain && s.frame < |mem| && s.idx < 127 && s.frame !in p.bitmaps
  {
    OwnedPages(chain, live, p);
    assert s.frame in Members(chain);
  }

  lemma ReadyToFill(mem1: Mem, mem2: Mem, base: nat, head: nat, first: nat, chain: seq<nat>, live: seq<Entry>,
                    slots: set<Slot>, p1: Pool, p2: Pool, e: Entry, pa: nat)
    requires HeapStored(mem1, base, head, first, chain, live, slots) && Owns(chain, live, p1) && p1.bitmaps <= p1.used
    requires |mem1| <= MAX_FRAMES && (base == 0 || base == KERNEL_BASE)
    requires FramesTaken(p1, mem1, p2, mem2, e.Pages(), pa) && e.first == pa / PAGE_SIZE
    requires 0 < e.size <= SIZE_MAX - (PAGE_SIZE - 1) && e.slot in slots
    ensures HeapStored(mem2, base, head, first, chain, live, slots)
    ensures Owns(chain, live, p2) && Owns(chain, live + [e], p2)
    ensures Rest(p2, chain, live + [e]) == Rest(p1, chain, live)
    ensures e.slot.frame in chain && e.slot.frame < |mem2| && e.slot.idx < 127 && e.slot.frame !in p2.bitmaps
            && e.slot.frame > 0
    ensures PaToVa(base, pa) == PageVa(base, e.first) > 0 && PageVa(base, e.first) < ADDRESS_SPACE
    ensures SameOutside(mem1, mem2, p1.bitmaps) && p2.bitmaps == p1.bitmaps
  {
    OwnedPages(chain, live, p1);
    HeapElsewhere(mem1, mem2, base, head, first, chain, live, slots, p1.bitmaps);
    LinearMap(base, pa);
    assert e.slot.frame in Members(chain);
    GainBlock(chain, live, p1, e);
    OwnsFront(chain, live + [e], p2);
    assert (live + [e])[..|live|] == live;
  }

  lemma FilledIn(mem: Mem, base: nat, e: Entry, ptr: Word, size: Word)
    requires SlotPlaced(mem, e.slot) && ptr == PageVa(base, e.first) && size == e.size
    ensures EntryFilled(SetWord(SetWord(mem, e.slot, 0, ptr), e.slot, 1, size), base, e)
  {
  }

  lemma OutsideChain(mem1: Mem, mem2: Mem, mem3: Mem, mem4: Mem, mem5: Mem, p: Pool, chain: seq<nat>, s: Slot)
    requires SameOutside(mem1, mem2, p.bitmaps) && s.frame in chain
    requires SameOutside(mem2, mem3, {s.frame}) && SameOutside(mem3, mem4, {s.frame})
             && SameOutside(mem4, mem5, Members(chain))
    ensures SameOutside(mem1, mem5, p.bitmaps + Members(chain))
  {
    assert s.frame in Members(chain);
  }

  lemma GrantedAfter(base: nat, chain: seq<nat>, live: seq<Entry>, p: Pool, mem: Mem, chain': seq<nat>, p1: Pool,
                     mem1: Mem, s: Slot, live': seq<Entry>, p2: Pool, mem2: Mem, mem3: Mem, pa: nat, size: nat)
    requires SlotReserved(chain, live, p, mem, chain', p1, mem1, s) && AtMostOneEmpty(chain, live)
    requires live' == live + [Entry(s, pa / PAGE_SIZE, size)]
    requires FramesTaken(p1, mem1, p2, mem2, NumPages(size), pa)
    requires Rest(p2, chain', live') == Rest(p1, chain', live)
    requires SameOutside(mem1, mem3, p1.bitmaps + Members(chain'))
    ensures BlockGranted(base, chain, live, p, mem, chain', live', p2, mem3, size, PageVa(base, pa / PAGE_SIZE))
    ensures AtMostOneEmpty(chain', live')
  {
    EmptyAfterGrant(chain, live, p, chain', p1, s, live');
    assert live'[|live|].Frames() <= p.Free();
  }

  lemma EmptyAfterGrant(chain: seq<nat>, live: seq<Entry>, p: Pool, chain': seq<nat>, p1: Pool, s: Slot,
                        live': seq<Entry>)
    requires AtMostOneEmpty(chain, live) && s.frame in chain' && s.idx < 127 && s !in LiveSlots(live)
    requires || (chain' == chain && p1 == p)
             || exists f :: AllFull(chain, LiveSlots(live)) && chain' == chain + [f] && f !in p.used
                    && p1 == p.(used := p.used + {f})
    requires |live'| == |live| + 1 && live'[..|live|] == live && live'[|live|].slot == s
    ensures AtMostOneEmpty(chain', live')
    ensures NoneEmpty(chain, live) ==> NoneEmpty(chain', live')
  {
    assert !EmptyPage(live', s.frame);
    forall f | EmptyPage(live', f)
      ensures EmptyPage(live, f)
    {
      assert forall i: nat :: i < |live| ==> live'[i] == live[i];
    }
    if chain' != chain || p1 != p {
      FullNotEmpty(chain, live);
      var f :| AllFull(chain, LiveSlots(live)) && chain' == chain + [f];
      assert forall k: nat :: k < |chain| ==> Slot(chain[k], s.idx) in LiveSlots(live);
      assert s.frame == f;
    }
  }

  lemma EntryFacts(mem: Mem, base: nat, head: nat, live: seq<Entry>, i: nat)
    requires ListOk(mem, base, head, live) && i < |live|
    ensures SlotPlaced(mem, live[i].slot)
    ensures NextAt(mem, live[i].slot) == EntryLink(base, live, i + 1)
    ensures PtrAt(mem, live[i].slot) == PageVa(base, live[i].first) && SizeAt(mem, live[i].slot) == live[i].size
    ensures EntryLink(base, live, i + 1) == 0 <==> i + 1 == |live|
  {
    assert EntryStored(mem, base, live[i], EntryLink(base, live, i + 1));
    if i + 1 < |live| {
      assert EntryStored(mem, base, live[i + 1], EntryLink(base, live, i + 2));
    }
  }

  /** Pointer and size are in place. */
  ghost predicate EntryFilled(mem: Mem, base: nat, e: Entry) {
    SlotPlaced(mem, e.slot) && PtrAt(mem, e.slot) == PageVa(base, e.first) && SizeAt(mem, e.slot) == e.size
  }

  lemma ReadyToLink(mem: Mem, base: nat, head: nat, first: nat, chain: seq<nat>, live: seq<Entry>, slots: set<Slot>,
                    e: Entry, p: Pool)
    requires HeapStored(mem, base, head, first, chain, live, slots) && Owns(chain, live, p)
    requires e.slot in slots && |mem| <= MAX_FRAMES && (base == 0 || base == KERNEL_BASE)
    ensures 0 < e.slot.frame < |mem| && e.slot.idx < 127 && e.slot.frame !in p.bitmaps && e.slot.frame in chain
    ensures 0 < SlotVa(base, e.slot) < ADDRESS_SPACE
    ensures ListOk(mem, base, first, live) && (first == 0 <==> |live| == 0)
    ensures |live| > 0 ==> var last := live[|live| - 1].slot;
              SlotPlaced(mem, last) && last.frame !in p.bitmaps && last.frame in chain
  {
    OwnedPages(chain, live, p);
    assert e.slot.frame in Members(chain);
    assert forall i: nat :: i < |live| ==> live[i].slot in slots && live[i].slot.frame in Members(chain);
  }

  lemma Filled(mem: Mem, base: nat, head: nat, first: nat, chain: seq<nat>, live: seq<Entry>, slots: set<Slot>,
               e: Entry)
    requires HeapStored(mem, base, head, first, chain, live, slots)
    requires e.slot in slots && e.slot !in LiveSlots(live) && EntryFilled(mem, base, e)
    ensures var mem' := SetWord(mem, e.slot, 3, 0);
            HeapStored(mem', base, head, first, chain, live, slots) && EntryStored(mem', base, e, 0)
            && ListOk(mem', base, first, live)
  {
    FieldStored(mem, base, head, first, chain, live, slots, e.slot, 3, 0);
  }

  lemma LinkedOutside(mem0: Mem, mem1: Mem, mem2: Mem, chain: seq<nat>, slots: set<Slot>, live: seq<Entry>, e: Entry)
    requires e.slot.frame in chain && e.slot.frame < |mem0| && e.slot.idx < 127
    requires mem1 == SetWord(mem0, e.slot, 3, 0)
    requires || mem2 == mem1
             || (&& |live| > 0 && live[|live| - 1].slot.frame in chain && SlotPlaced(mem1, live[|live| - 1].slot)
                 && SameOutside(mem1, mem2, {live[|live| - 1].slot.frame}))
    ensures SameOutside(mem0, mem2, Members(chain))
  {
  }

  lemma HeapFacts(mem: Mem, base: nat, head: nat, first: nat, chain: seq<nat>, live: seq<Entry>, slots: set<Slot>)
    requires HeapStored(mem, base, head, first, chain, live, slots)
    ensures ChainOk(mem, base, head, chain) && SlotsOk(mem, chain, slots)
    ensures head == 0 <==> |chain| == 0
  {
  }

  /** The chain as it was, or with one page more because every descriptor was in use. */
  ghost predicate Extended(chain: seq<nat>, live: seq<Entry>, p: Pool, mem: Mem, chain': seq<nat>, p': Pool,
                           mem': Mem)
  {
    || (chain' == chain && p' == p && mem' == mem)
    || exists f :: AllFull(chain, LiveSlots(live)) && Grown(chain, live, p, mem, chain', p', mem', f)
  }

  lemma ExtendedSame(chain: seq<nat>, live: seq<Entry>, p: Pool, mem: Mem)
    ensures Extended(chain, live, p, mem, chain, p, mem)
  {
  }

  lemma ExtendedEmpty(chain: seq<nat>, live: seq<Entry>, p: Pool, mem: Mem, chain': seq<nat>, p': Pool, mem': Mem,
                      f: nat)
    requires |chain| == 0 && Grown(chain, live, p, mem, chain', p', mem', f)
    ensures Extended(chain, live, p, mem, chain', p', mem')
  {
    assert AllFull(chain, LiveSlots(live));
  }

  lemma ExtendedFull(chain: seq<nat>, live: seq<Entry>, p: Pool, mem: Mem, chain': seq<nat>, p': Pool, mem': Mem,
                     f: nat)
    requires AllFull(chain, LiveSlots(live)) && Grown(chain, live, p, mem, chain', p', mem', f)
    requires SlotsOk(mem, chain, LiveSlots(live))
    ensures Extended(chain, live, p, mem, chain', p', mem')
    ensures Slot(f, 0) !in LiveSlots(live) && f in chain'
  {
    assert f in chain';
  }

  /** A fresh page always offers a descriptor. */
  lemma StillSame(chain: seq<nat>, live: seq<Entry>, p: Pool, mem: Mem, chain': seq<nat>, p': Pool, mem': Mem)
    requires Extended(chain, live, p, mem, chain', p', mem') && SlotsOk(mem, chain, LiveSlots(live))
    ensures AllFull(chain', LiveSlots(live)) ==> chain' == chain && p' == p && mem' == mem
  {
    forall f | Grown(chain, live, p, mem, chain', p', mem', f)
      ensures !AllFull(chain', LiveSlots(live))
    {
      GrownOffers(chain, live, p, mem, chain', p', mem', f);
    }
  }

  lemma GrownOffers(chain: seq<nat>, live: seq<Entry>, p: Pool, mem: Mem, chain': seq<nat>, p': Pool, mem': Mem, f: nat)
    requires Grown(chain, live, p, mem, chain', p', mem', f) && SlotsOk(mem, chain, LiveSlots(live))
    ensures !AllFull(chain', LiveSlots(live))
  {
    assert chain'[|chain|] == f;
    assert Slot(chain'[|chain|], 0) !in LiveSlots(live);
  }

  /** Descriptor `s` is taken; the chain may have gained a page, because all others were full. */
  ghost predicate SlotReserved(chain: seq<nat>, live: seq<Entry>, p: Pool, mem: Mem, chain': seq<nat>, p': Pool,
                               mem': Mem, s: Slot)
  {
    && s.frame in chain' && s.idx < 127 && s !in LiveSlots(live)
    && (|| (chain' == chain && p' == p)
        || exists f :: AllFull(chain, LiveSlots(live)) && chain' == chain + [f] && f !in p.used
               && p' == p.(used := p.used + {f}))
    && Rest(p', chain', live) == Rest(p, chain, live)
    && SameOutside(mem, mem', p.bitmaps + Members(chain'))
  }

  lemma ReadyToReserve(mem: Mem, base: nat, head: nat, first: nat, chain: seq<nat>, live: seq<Entry>, s: Slot, p: Pool)
    requires HeapStored(mem, base, head, first, chain, live, LiveSlots(live)) && Owns(chain, live, p)
    requires s.frame in chain
    ensures s.frame < |mem| && s.frame !in p.bitmaps
  {
    OwnedPages(chain, live, p);
    assert s.frame in Members(chain);
  }

  lemma Reserved(chain: seq<nat>, live: seq<Entry>, p: Pool, mem: Mem, chain': seq<nat>, p': Pool, mem1: Mem, mem2: Mem,
                 s: Slot)
    requires Extended(chain, live, p, mem, chain', p', mem1)
    requires s.frame in chain' && s.idx < 127 && s !in LiveSlots(live)
    requires s.frame < |mem1| && mem2 == SetWord(mem1, s, 2, 1)
    ensures SlotReserved(chain, live, p, mem, chain', p', mem2, s)
  {
    assert s.frame in Members(chain');
  }

  /** The chain gained the formerly free page `f`; only management pages and bitmaps changed. */
  ghost predicate Grown(chain: seq<nat>, live: seq<Entry>, p: Pool, mem: Mem, chain': seq<nat>, p': Pool, mem': Mem,
                        f: nat)
  {
    && chain' == chain + [f] && f !in chain && f !in p.used
    && p' == p.(used := p.used + {f})
    && Rest(p', chain', live) == Rest(p, chain, live)
    && SameOutside(mem, mem', p.bitmaps + Members(chain'))
  }

  lemma ReadyToGrow(mem0: Mem, p0: Pool, base: nat, head: nat, first: nat, chain: seq<nat>, live: seq<Entry>,
                    slots: set<Slot>, mem1: Mem, p1: Pool, f: nat)
    requires HeapStored(mem0, base, head, first, chain, live, slots) && Owns(chain, live, p0)
    requires base == 0 || base == KERNEL_BASE
    requires NewPage(mem0, p0, mem1, p1, f) && |mem0| <= MAX_FRAMES
    ensures HeapStored(mem1, base, head, first, chain, live, slots)
    ensures f !in chain && PageVa(base, f) < ADDRESS_SPACE
    ensures |chain| > 0 ==> chain[|chain| - 1] < |mem1| && chain[|chain| - 1] !in p1.bitmaps
    ensures PageVa(base, f) > 0 && forall g :: g in chain ==> PageVa(base, g) > 0
  {
    OwnedPages(chain, live, p0);
    HeapElsewhere(mem0, mem1, base, head, first, chain, live, slots, p0.bitmaps + {f});
    if |chain| > 0 {
      assert chain[|chain| - 1] in Members(chain);
    }
    assert f in chain ==> f in Members(chain);
  }

  lemma LinkSame(mem: Mem, f: nat)
    requires f < |mem| && NextPageAt(mem, f) == 0
    ensures SetLink(mem, f, 0) == mem
  {
    assert mem[f][LINK_WORD := 0] == mem[f];
  }

  lemma GrownChain(mem0: Mem, p0: Pool, base: nat, head: nat, first: nat, chain: seq<nat>, live: seq<Entry>,
                   slots: set<Slot>, mem1: Mem, p1: Pool, f: nat)
    requires HeapStored(mem1, base, head, first, chain, live, slots) && Owns(chain, live, p0)
    requires NewPage(mem0, p0, mem1, p1, f) && |mem0| <= MAX_FRAMES && f !in chain && PageVa(base, f) < ADDRESS_SPACE
    ensures |chain| == 0 ==>
              var mem2 := SetLink(mem1, f, 0);
              && HeapStored(mem2, base, PageVa(base, f), first, chain + [f], live, slots)
              && Grown(chain, live, p0, mem0, chain + [f], p1, mem2, f)
    ensures |chain| > 0 ==>
              && chain[|chain| - 1] < |mem1|
              && var mem2 := SetLink(SetLink(mem1, chain[|chain| - 1], PageVa(base, f)), f, 0);
                 && HeapStored(mem2, base, head, first, chain + [f], live, slots)
                 && Grown(chain, live, p0, mem0, chain + [f], p1, mem2, f)
    ensures Owns(chain + [f], live, p1)
  {
    PageJoins(mem1, base, head, first, chain, live, slots, f);
    GainPage(chain, live, p0, f);
    assert f in Members(chain + [f]);
    if |chain| > 0 {
      var last := chain[|chain| - 1];
      assert last in Members(chain + [f]);
      LinkSame(SetLink(mem1, last, PageVa(base, f)), f);
    } else {
      assert chain + [f] == [f];
      LinkSame(mem1, f);
    }
  }

  /** Every descriptor of every management page is in use. */
  ghost predicate AllFull(chain: seq<nat>, slots: set<Slot>) {
    forall k: nat, j: nat :: k < |chain| && j < 127 ==> Slot(chain[k], j) in slots
  }

  lemma NoneToFill(slots: set<Slot>)
    ensures forall chain: seq<nat> :: |chain| == 0 ==> AllFull(chain, slots)
  {
  }

  lemma FullIff(chain: seq<nat>, slots: set<Slot>, s: Slot)
    requires s !in slots && s.idx < 127
    ensures s.frame in chain ==> !AllFull(chain, slots)
  {
    if s.frame in chain {
      var k: nat :| k < |chain| && chain[k] == s.frame;
      assert Slot(chain[k], s.idx) !in slots;
    }
  }

  // ---- which pages kmalloc takes

  /** The first free page is taken. */
  ghost predicate OneTaken(rs: seq<Region>, rs': seq<Region>) {
    exists pa: nat :: FitMarked(rs, rs', 1, pa)
  }

  /** The flags once a descriptor is reserved: a page goes for management exactly when all descriptors are in use. */
  ghost predicate DescriptorReady(chain: seq<nat>, live: seq<Entry>, rs: seq<Region>, rs1: seq<Region>) {
    if AllFull(chain, LiveSlots(live)) then OneTaken(rs, rs1) else rs1 == rs
  }

  /** No descriptor is left and no page for more of them. */
  ghost predicate NoDescriptor(chain: seq<nat>, live: seq<Entry>, rs: seq<Region>) {
    AllFull(chain, LiveSlots(live)) && NoFit(rs, 1)
  }

  /** kmalloc, flags alone: null for size 0, an overflowing size, want of a descriptor or of a fit behind it;
    otherwise the first fit behind the descriptor's page. */
  ghost predicate KmallocFit(base: nat, chain: seq<nat>, live: seq<Entry>, rs: seq<Region>, rs': seq<Region>, size: nat,
                             ptr: nat)
  {
    if size == 0 || size > 0xFFFF_FFFF_FFFF_F000 || NoDescriptor(chain, live, rs) then ptr == 0 && rs' == rs
    else exists rs1 :: DescriptorReady(chain, live, rs, rs1) && BlockFit(base, rs1, rs', (size + 4095) / 4096, ptr)
  }

  ghost predicate BlockFit(base: nat, rs1: seq<Region>, rs': seq<Region>, n: nat, ptr: nat) {
    if NoFit(rs1, n) then ptr == 0 && rs' == rs1
    else ptr != 0 && exists pa: nat :: FitMarked(rs1, rs', n, pa) && ptr == PageVa(base, pa / PAGE_SIZE)
  }

  lemma FitHere(base: nat, chain: seq<nat>, live: seq<Entry>, rs: seq<Region>, rs1: seq<Region>, rs': seq<Region>,
                size: nat, pa: nat, ptr: nat)
    requires 0 < size <= SIZE_MAX - (PAGE_SIZE - 1) && !NoDescriptor(chain, live, rs)
    requires DescriptorReady(chain, live, rs, rs1)
    requires if pa == PHYS_ADDR_NULL then NoFit(rs1, NumPages(size)) && ptr == 0 && rs' == rs1
             else FitMarked(rs1, rs', NumPages(size), pa) && ptr == PageVa(base, pa / PAGE_SIZE) && ptr != 0
    ensures KmallocFit(base, chain, live, rs, rs', size, ptr)
  {
    assert NumPages(size) == (size + 4095) / 4096;
    hide DescriptorReady, NoDescriptor, NumPages, FirstFitAt;
    FitIsFit(rs1, rs', NumPages(size), pa);
    assert BlockFit(base, rs1, rs', NumPages(size), ptr);
  }

  lemma SomePages(size: nat)
    ensures size > 0 ==> NumPages(size) > 0
  {
  }

  lemma DescriptorFound(chain: seq<nat>, live: seq<Entry>, rs: seq<Region>, rs1: seq<Region>)
    requires DescriptorReady(chain, live, rs, rs1)
    ensures !NoDescriptor(chain, live, rs)
  {
    hide AllFull, NoFit, FitMarked;
    if OneTaken(rs, rs1) {
      var pa: nat :| FitMarked(rs, rs1, 1, pa);
      FitIsFit(rs, rs1, 1, pa);
    }
  }

  lemma FitIsFit(rs: seq<Region>, rs': seq<Region>, n: nat, pa: nat)
    ensures FitMarked(rs, rs', n, pa) ==> !NoFit(rs, n)
  {
  }

  lemma PageMade(p: Pool, mem: Mem, p': Pool, mem1: Mem, pa: nat, f: nat)
    requires FramesTaken(p, mem, p', mem1, 1, pa) && f == pa / PAGE_SIZE && p.bitmaps <= p.used
    ensures 0 < f < |mem1| && f !in p'.bitmaps && pa == f * PAGE_SIZE
    ensures NewPage(mem, p, mem1[f := ZeroFrame()], p', f)
  {
    OneFrame(f);
  }

  lemma OneFrame(f: nat)
    ensures Run(f, 1) == {f}
  {
  }

  /** Frame `f` was free and is now a used, zeroed page; only bitmaps changed besides. */
  ghost predicate NewPage(mem: Mem, p: Pool, mem': Mem, p': Pool, f: nat) {
    && 0 < f < |mem'| == |mem| && f !in p.used && f !in p.bitmaps && f in p.managed && p.Within(f, 1)
    && p' == p.(used := p.used + {f})
    && mem'[f] == ZeroFrame()
    && SameOutside(mem, mem', p.bitmaps + {f})
  }
}
