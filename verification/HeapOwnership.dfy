/** Which frames the heap holds, and how many. */
module HeapOwnership {
  import opened Memory
  import opened PhysicalPages
  import opened HeapModel

  const SIZE_MAX: nat := ADDRESS_SPACE - 1

  ghost predicate InHeap(chain: seq<nat>, live: seq<Entry>, f: nat) {
    f in chain || exists i: nat :: i < |live| && f in live[i].Frames()
  }

  ghost predicate EntryOwned(e: Entry, p: Pool) {
    && 0 < e.size <= SIZE_MAX - (PAGE_SIZE - 1) && e.first > 0
    && e.Frames() <= p.used && e.Frames() !! p.bitmaps
    && p.Within(e.first, e.Pages())
  }

  ghost predicate PageOwned(f: nat, p: Pool) {
    f in p.used && f !in p.bitmaps && p.Within(f, 1)
  }

  /** Management pages and blocks are used pages, no bitmap, and pairwise disjoint. */
  ghost predicate Owns(chain: seq<nat>, live: seq<Entry>, p: Pool) {
    && (forall i: nat :: i < |chain| ==> PageOwned(chain[i], p))
    && (forall i: nat :: i < |live| ==> EntryOwned(live[i], p))
    && (forall i: nat, k: nat :: i < |live| && k < |chain| ==> chain[k] !in live[i].Frames())
    && (forall i: nat, j: nat :: i < j < |live| ==> live[i].Frames() !! live[j].Frames())
  }

  /** The used frames the heap holds, and those it does not. */
  ghost function HeapFrames(p: Pool, chain: seq<nat>, live: seq<Entry>): set<nat> {
    set f | f in p.used && InHeap(chain, live, f)
  }

  ghost function Rest(p: Pool, chain: seq<nat>, live: seq<Entry>): set<nat> {
    set f | f in p.used && !InHeap(chain, live, f)
  }

  lemma InHeapAppendPage(chain: seq<nat>, live: seq<Entry>, g: nat)
    ensures forall f :: InHeap(chain + [g], live, f) <==> InHeap(chain, live, f) || f == g
  {
  }

  lemma InHeapAppendBlock(chain: seq<nat>, live: seq<Entry>, e: Entry)
    ensures forall f :: InHeap(chain, live + [e], f) <==> InHeap(chain, live, f) || f in e.Frames()
  {
    var live' := live + [e];
    forall f
      ensures InHeap(chain, live', f) <==> InHeap(chain, live, f) || f in e.Frames()
    {
      if i: nat :| i < |live| && f in live[i].Frames() {
        assert f in live'[i].Frames();
      }
      if f in e.Frames() {
        assert f in live'[|live|].Frames();
      }
    }
  }

  lemma InHeapWithoutBlock(chain: seq<nat>, live: seq<Entry>, p: Pool, k: nat)
    requires Owns(chain, live, p) && k < |live|
    ensures forall f :: InHeap(chain, Without(live, k), f) <==> InHeap(chain, live, f) && f !in live[k].Frames()
  {
    forall f
      ensures InHeap(chain, Without(live, k), f) <==> InHeap(chain, live, f) && f !in live[k].Frames()
    {
      LeavesBlocks(chain, live, p, k, f);
      StaysBlocks(chain, live, k, f);
    }
  }

  lemma LeavesBlocks(chain: seq<nat>, live: seq<Entry>, p: Pool, k: nat, f: nat)
    requires Owns(chain, live, p) && k < |live|
    ensures InHeap(chain, Without(live, k), f) ==> InHeap(chain, live, f) && f !in live[k].Frames()
  {
    var live' := Without(live, k);
    if i: nat :| i < |live'| && f in live'[i].Frames() {
      var j := if i < k then i else i + 1;
      assert f in live[j].Frames() && j != k;
      assert live[j].Frames() !! live[k].Frames();
    }
  }

  lemma StaysBlocks(chain: seq<nat>, live: seq<Entry>, k: nat, f: nat)
    requires k < |live|
    ensures InHeap(chain, live, f) && f !in live[k].Frames() ==> InHeap(chain, Without(live, k), f)
  {
    var live' := Without(live, k);
    if i: nat :| i < |live| && f in live[i].Frames() && i != k {
      assert live'[if i < k then i else i - 1] == live[i];
    }
  }

  lemma MembersWithout(chain: seq<nat>, k: nat)
    requires Distinct(chain) && k < |chain|
    ensures forall f :: f in Without(chain, k) <==> f in chain && f != chain[k]
  {
    var chain' := Without(chain, k);
    forall f
      ensures f in chain' <==> f in chain && f != chain[k]
    {
      if f in chain && f != chain[k] {
        var i: nat :| i < |chain| && chain[i] == f;
        assert chain'[if i < k then i else i - 1] == f;
      }
    }
  }

  lemma InHeapWithoutPage(chain: seq<nat>, live: seq<Entry>, p: Pool, k: nat)
    requires Owns(chain, live, p) && Distinct(chain) && k < |chain|
    ensures forall f :: InHeap(Without(chain, k), live, f) <==> InHeap(chain, live, f) && f != chain[k]
  {
    MembersWithout(chain, k);
  }

  // ---- how ownership moves

  lemma GainPage(chain: seq<nat>, live: seq<Entry>, p: Pool, g: nat)
    requires Owns(chain, live, p) && g !in p.used && g !in p.bitmaps && p.Within(g, 1)
    ensures var p' := p.(used := p.used + {g});
            Owns(chain + [g], live, p') && Rest(p', chain + [g], live) == Rest(p, chain, live)
  {
    InHeapAppendPage(chain, live, g);
  }

  lemma GainBlock(chain: seq<nat>, live: seq<Entry>, p: Pool, e: Entry)
    requires Owns(chain, live, p) && e.Frames() !! p.used && e.Frames() !! p.bitmaps
    requires EntryOwned(e, p.(used := p.used + e.Frames()))
    ensures var p' := p.(used := p.used + e.Frames());
            Owns(chain, live + [e], p') && Rest(p', chain, live + [e]) == Rest(p, chain, live)
  {
    InHeapAppendBlock(chain, live, e);
    var live', p' := live + [e], p.(used := p.used + e.Frames());
    forall i: nat | i < |live|
      ensures EntryOwned(live[i], p') && live[i].Frames() !! e.Frames()
    {
      assert EntryOwned(live[i], p);
    }
    forall k: nat | k < |chain|
      ensures PageOwned(chain[k], p') && chain[k] !in e.Frames()
    {
      assert PageOwned(chain[k], p);
    }
  }

  lemma LoseBlock(chain: seq<nat>, live: seq<Entry>, p: Pool, k: nat)
    requires Owns(chain, live, p) && k < |live|
    ensures var p' := p.(used := p.used - live[k].Frames());
            Owns(chain, Without(live, k), p') && Rest(p', chain, Without(live, k)) == Rest(p, chain, live)
  {
    InHeapWithoutBlock(chain, live, p, k);
    var live', p' := Without(live, k), p.(used := p.used - live[k].Frames());
    forall i: nat | i < |live'|
      ensures EntryOwned(live'[i], p')
    {
      var j := if i < k then i else i + 1;
      assert EntryOwned(live[j], p) && live[j].Frames() !! live[k].Frames();
    }
    forall i: nat | i < |chain|
      ensures PageOwned(chain[i], p')
    {
      assert PageOwned(chain[i], p);
    }
  }

  lemma LosePage(chain: seq<nat>, live: seq<Entry>, p: Pool, k: nat)
    requires Owns(chain, live, p) && Distinct(chain) && k < |chain|
    ensures var p' := p.(used := p.used - {chain[k]});
            Owns(Without(chain, k), live, p') && Rest(p', Without(chain, k), live) == Rest(p, chain, live)
  {
    InHeapWithoutPage(chain, live, p, k);
    var chain', p' := Without(chain, k), p.(used := p.used - {chain[k]});
    forall i: nat | i < |live|
      ensures EntryOwned(live[i], p')
    {
      assert EntryOwned(live[i], p);
    }
    forall i: nat | i < |chain'|
      ensures PageOwned(chain'[i], p')
    {
      var j := if i < k then i else i + 1;
      assert PageOwned(chain[j], p) && chain[j] != chain[k];
    }
  }

  // ---- counting

  function TotalPages(live: seq<Entry>): nat {
    if |live| == 0 then 0 else TotalPages(live[..|live| - 1]) + live[|live| - 1].Pages()
  }

  function Members(chain: seq<nat>): set<nat> {
    set f | f in chain
  }

  lemma {:induction false} ChainCount(chain: seq<nat>)
    requires Distinct(chain)
    ensures |Members(chain)| == |chain|
  {
    if |chain| == 0 {
    } else {
      var front, last := chain[..|chain| - 1], chain[|chain| - 1];
      ChainCount(front);
      assert last !in front by {
        assert forall i: nat :: i < |front| ==> front[i] == chain[i] != last;
      }
      assert chain == front + [last];
      assert Members(chain) == Members(front) + {last};
    }
  }

  lemma OwnsFront(chain: seq<nat>, live: seq<Entry>, p: Pool)
    requires Owns(chain, live, p) && |live| > 0
    ensures Owns(chain, live[..|live| - 1], p)
  {
  }

  /** Heap-held pages are the block pages, each size rounded up, plus the management pages. */
  lemma {:induction false} HeapPageCount(p: Pool, chain: seq<nat>, live: seq<Entry>)
    requires Owns(chain, live, p) && Distinct(chain)
    ensures |HeapFrames(p, chain, live)| == |chain| + TotalPages(live)
  {
    if |live| == 0 {
      ChainCount(chain);
      assert HeapFrames(p, chain, live) == Members(chain);
    } else {
      var front, e := live[..|live| - 1], live[|live| - 1];
      OwnsFront(chain, live, p);
      HeapPageCount(p, chain, front);
      FramesWithLast(p, chain, live);
      RunSize(e.first, e.Pages());
    }
  }

  lemma FramesWithLast(p: Pool, chain: seq<nat>, live: seq<Entry>)
    requires Owns(chain, live, p) && |live| > 0
    ensures var front, e := live[..|live| - 1], live[|live| - 1];
            && HeapFrames(p, chain, live) == HeapFrames(p, chain, front) + e.Frames()
            && HeapFrames(p, chain, front) !! e.Frames()
  {
    var front, e := live[..|live| - 1], live[|live| - 1];
    assert live == front + [e];
    InHeapAppendBlock(chain, front, e);
    assert EntryOwned(e, p);
    assert forall i: nat :: i < |front| ==> front[i] == live[i] && live[i].Frames() !! e.Frames();
    assert forall k: nat :: k < |chain| ==> chain[k] !in live[|live| - 1].Frames();
  }

  // ---- management pages without a live descriptor

  ghost predicate EmptyPage(live: seq<Entry>, f: nat) {
    forall i: nat :: i < |live| ==> live[i].slot.frame != f
  }

  ghost predicate NoneEmpty(chain: seq<nat>, live: seq<Entry>) {
    forall f :: f in chain ==> !EmptyPage(live, f)
  }

  ghost predicate AtMostOneEmpty(chain: seq<nat>, live: seq<Entry>) {
    forall f, g :: f in chain && g in chain && EmptyPage(live, f) && EmptyPage(live, g) ==> f == g
  }

  /** With no block left, at most one management page is left, and none if none was empty. */
  lemma NothingLive(chain: seq<nat>, live: seq<Entry>)
    requires Distinct(chain) && |live| == 0
    ensures AtMostOneEmpty(chain, live) ==> |chain| <= 1
    ensures NoneEmpty(chain, live) ==> |chain| == 0
  {
    if |chain| > 0 {
      assert chain[0] in chain && EmptyPage(live, chain[0]);
      if |chain| > 1 {
        assert chain[1] in chain && EmptyPage(live, chain[1]);
      }
    }
  }

  // ---- the abstract heap: live pointers and their sizes

  ghost predicate FirstsDistinct(live: seq<Entry>) {
    forall i: nat, j: nat :: i < j < |live| ==> live[i].first != live[j].first
  }

  lemma OwnedFirstsDistinct(chain: seq<nat>, live: seq<Entry>, p: Pool)
    requires Owns(chain, live, p)
    ensures FirstsDistinct(live)
  {
    forall i: nat, j: nat | i < j < |live|
      ensures live[i].first != live[j].first
    {
      assert EntryOwned(live[i], p) && EntryOwned(live[j], p);
      assert live[i].first in live[i].Frames() && live[j].first in live[j].Frames();
    }
  }

  /** Pointer to size, for every live block. */
  ghost function Blocks(base: nat, live: seq<Entry>): map<nat, nat>
    requires FirstsDistinct(live)
  {
    map e | e in live :: PageVa(base, e.first) := e.size
  }

  lemma BlocksAppend(base: nat, live: seq<Entry>, e: Entry)
    requires FirstsDistinct(live + [e])
    ensures FirstsDistinct(live)
    ensures PageVa(base, e.first) !in Blocks(base, live)
    ensures Blocks(base, live + [e]) == Blocks(base, live)[PageVa(base, e.first) := e.size]
  {
    var live' := live + [e];
    forall i: nat, j: nat | i < j < |live|
      ensures live[i].first != live[j].first
    {
      assert live'[i].first != live'[j].first;
    }
    forall i: nat | i < |live|
      ensures live[i].first != e.first
    {
      assert live'[i].first != live'[|live|].first;
    }
    assert forall x :: x in live' <==> x in live || x == e;
  }

  lemma EntriesWithout(live: seq<Entry>, k: nat)
    requires FirstsDistinct(live) && k < |live|
    ensures FirstsDistinct(Without(live, k))
    ensures forall x :: x in Without(live, k) <==> x in live && x.first != live[k].first
  {
    var live' := Without(live, k);
    forall x | x in live && x.first != live[k].first
      ensures x in live'
    {
      var i: nat :| i < |live| && live[i] == x;
      assert live'[if i < k then i else i - 1] == x;
    }
    forall x | x in live'
      ensures x in live && x.first != live[k].first
    {
      var j: nat :| j < |live'| && live'[j] == x;
      assert live[if j < k then j else j + 1] == x;
    }
  }

  lemma BlocksWithout(base: nat, live: seq<Entry>, k: nat)
    requires FirstsDistinct(live) && k < |live|
    ensures FirstsDistinct(Without(live, k))
    ensures Blocks(base, Without(live, k)) == Blocks(base, live) - {PageVa(base, live[k].first)}
  {
    hide Without;
    EntriesWithout(live, k);
    var a, b := Blocks(base, Without(live, k)), Blocks(base, live) - {PageVa(base, live[k].first)};
    assert a.Keys == b.Keys;
  }
}
