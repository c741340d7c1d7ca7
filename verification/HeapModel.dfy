/** The kernel heap's data as it lies in memory.

  A management page is an array of 127 descriptors of four words (block pointer, size,
  in-use flag, next descriptor) followed by a link to the next management page. Two
  lists run through these pages: the chain of pages, and the list of live descriptors. */
module HeapModel {
  import opened Memory
  import opened Bits

  /** MAX_MANAGEMENT_BLOCKS_PER_PAGE for 8-byte pointers and 32-byte descriptors. */
  const SLOTS_PER_PAGE: nat := (PAGE_SIZE - 8) / 32
  const LINK_WORD: nat := 508

  /** A descriptor: the frame of its page and its place there. */
  datatype Slot = Slot(frame: nat, idx: nat)

  /** A live block: its descriptor, first frame and size in bytes. */
  datatype Entry = Entry(slot: Slot, first: nat, size: nat) {
    function Pages(): nat { NumPages(size) }

    function Frames(): set<nat> { Run(first, Pages()) }
  }

  function SlotVa(base: nat, s: Slot): nat { base + s.frame * PAGE_SIZE + 32 * s.idx }

  function PtrAt(mem: Mem, s: Slot): Word
    requires s.frame < |mem| && s.idx < 127
  {
    mem[s.frame][4 * s.idx]
  }

  function SizeAt(mem: Mem, s: Slot): Word
    requires s.frame < |mem| && s.idx < 127
  {
    mem[s.frame][4 * s.idx + 1]
  }

  predicate InUse(mem: Mem, s: Slot)
    requires s.frame < |mem| && s.idx < 127
  {
    mem[s.frame][4 * s.idx + 2] != 0
  }

  function NextAt(mem: Mem, s: Slot): Word
    requires s.frame < |mem| && s.idx < 127
  {
    mem[s.frame][4 * s.idx + 3]
  }

  function NextPageAt(mem: Mem, f: nat): Word
    requires f < |mem|
  {
    mem[f][LINK_WORD]
  }

  function Store(mem: Mem, f: nat, j: nat, w: Word): Mem
    requires f < |mem| && j < 512
  {
    mem[f := mem[f][j := w]]
  }

  /** Word `k` of a descriptor, and the link of a page, overwritten. */
  function SetWord(mem: Mem, s: Slot, k: nat, w: Word): Mem
    requires s.frame < |mem| && s.idx < 127 && k < 4
  {
    Store(mem, s.frame, 4 * s.idx + k, w)
  }

  function SetLink(mem: Mem, f: nat, w: Word): Mem
    requires f < |mem|
  {
    Store(mem, f, LINK_WORD, w)
  }

  // ---- the chain of management pages

  function ChainLink(base: nat, chain: seq<nat>, i: nat): nat {
    if i < |chain| then PageVa(base, chain[i]) else 0
  }

  ghost predicate Distinct(chain: seq<nat>) {
    forall i: nat, j: nat :: i < j < |chain| ==> chain[i] != chain[j]
  }

  ghost predicate ChainOk(mem: Mem, base: nat, head: nat, chain: seq<nat>) {
    && Distinct(chain)
    && (forall i: nat :: i < |chain| ==> 0 < chain[i] < |mem|)
    && head == ChainLink(base, chain, 0)
    && (forall i: nat :: i < |chain| ==> NextPageAt(mem, chain[i]) == ChainLink(base, chain, i + 1))
  }

  lemma ChainStart(mem: Mem, base: nat, head: nat, chain: seq<nat>)
    requires ChainOk(mem, base, head, chain) && |chain| > 0
    ensures head == PageVa(base, chain[0])
  {
  }

  lemma ChainStep(mem: Mem, base: nat, head: nat, chain: seq<nat>, k: nat)
    requires ChainOk(mem, base, head, chain) && k < |chain|
    ensures 0 < chain[k] < |mem|
    ensures NextPageAt(mem, chain[k]) == if k + 1 < |chain| then PageVa(base, chain[k + 1]) else 0
  {
  }

  // ---- the list of live descriptors

  function EntryLink(base: nat, live: seq<Entry>, i: nat): nat {
    if i < |live| then SlotVa(base, live[i].slot) else 0
  }

  ghost predicate SlotPlaced(mem: Mem, s: Slot) {
    0 < s.frame < |mem| && s.idx < 127
  }

  ghost predicate EntryStored(mem: Mem, base: nat, e: Entry, next: nat) {
    && SlotPlaced(mem, e.slot)
    && PtrAt(mem, e.slot) == PageVa(base, e.first)
    && SizeAt(mem, e.slot) == e.size
    && NextAt(mem, e.slot) == next
  }

  ghost predicate SlotsDistinct(live: seq<Entry>) {
    forall i: nat, j: nat :: i < j < |live| ==> live[i].slot != live[j].slot
  }

  ghost predicate ListOk(mem: Mem, base: nat, head: nat, live: seq<Entry>) {
    && SlotsDistinct(live)
    && head == EntryLink(base, live, 0)
    && (forall i: nat :: i < |live| ==> EntryStored(mem, base, live[i], EntryLink(base, live, i + 1)))
  }

  // ---- which descriptors are in use

  ghost predicate SlotsOk(mem: Mem, chain: seq<nat>, slots: set<Slot>) {
    && (forall f: nat :: f in chain ==> f < |mem|)
    && (forall s: Slot :: s in slots ==> s.frame in chain && s.idx < 127)
    && (forall s: Slot :: s.frame in chain && s.idx < 127 ==> (InUse(mem, s) <==> s in slots))
  }

  ghost function LiveSlots(live: seq<Entry>): (r: set<Slot>)
    ensures forall i: nat :: i < |live| ==> live[i].slot in r
    ensures forall s :: s in r ==> exists i: nat :: i < |live| && live[i].slot == s
  {
    set e | e in live :: e.slot
  }

  // ---- addresses

  /** The pages fit: 127 descriptors and the link need no more than a page. */
  lemma PageLayout()
    ensures SLOTS_PER_PAGE == 127
    ensures SLOTS_PER_PAGE * 32 + 8 <= PAGE_SIZE && LINK_WORD * 8 == SLOTS_PER_PAGE * 32
  {
  }

  /** Masking a descriptor's address gives its management page and no other. */
  lemma MaskedSlot(base: nat, s: Slot)
    requires base % PAGE_SIZE == 0 && s.idx < 127
    ensures SlotVa(base, s) - SlotVa(base, s) % PAGE_SIZE == PageVa(base, s.frame)
  {
  }

  /** Where word `k` of a descriptor, and the page link, lie. */
  lemma SlotWord(base: nat, s: Slot, k: nat, frames: nat)
    requires base == 0 || base == KERNEL_BASE
    requires s.frame < frames <= MAX_FRAMES && s.idx < 127 && k < 4
    ensures VaToPa(base, SlotVa(base, s) + 8 * k) == s.frame * PAGE_SIZE + 8 * (4 * s.idx + k)
  {
  }

  lemma LinkWord(base: nat, f: nat, frames: nat)
    requires base == 0 || base == KERNEL_BASE
    requires f < frames <= MAX_FRAMES
    ensures VaToPa(base, PageVa(base, f) + 8 * LINK_WORD) == f * PAGE_SIZE + 8 * LINK_WORD
  {
  }

  lemma PageVaFits(base: nat, f: nat)
    requires base == 0 || base == KERNEL_BASE
    requires f < MAX_FRAMES
    ensures PageVa(base, f) < ADDRESS_SPACE
    ensures VaToPa(base, PageVa(base, f)) == f * PAGE_SIZE
  {
  }

  // ---- the effect of single stores

  /** A store to a descriptor keeps the chain. */
  lemma WordKeepsChain(mem: Mem, base: nat, head: nat, chain: seq<nat>, s: Slot, k: nat, w: Word)
    requires ChainOk(mem, base, head, chain) && s.frame < |mem| && s.idx < 127 && k < 4
    ensures ChainOk(SetWord(mem, s, k, w), base, head, chain)
  {
  }

  /** One entry under a store to another descriptor, or to a flag. */
  lemma EntryAfterWord(mem: Mem, base: nat, e: Entry, next: nat, s: Slot, k: nat, w: Word)
    requires EntryStored(mem, base, e, next) && s.frame < |mem| && s.idx < 127 && k < 4
    requires e.slot != s || k == 2
    ensures EntryStored(SetWord(mem, s, k, w), base, e, next)
  {
    var t := e.slot;
    assert t.frame == s.frame ==>
             4 * t.idx != 4 * s.idx + k && 4 * t.idx + 1 != 4 * s.idx + k && 4 * t.idx + 3 != 4 * s.idx + k;
  }

  lemma EntryRelinked(mem: Mem, base: nat, e: Entry, next: nat, w: Word)
    requires EntryStored(mem, base, e, next)
    ensures EntryStored(SetWord(mem, e.slot, 3, w), base, e, w)
  {
  }

  /** A store to a descriptor off the list, or to a flag, keeps the list. */
  lemma WordKeepsList(mem: Mem, base: nat, head: nat, live: seq<Entry>, s: Slot, k: nat, w: Word)
    requires ListOk(mem, base, head, live) && s.frame < |mem| && s.idx < 127 && k < 4
    requires k == 2 || s !in LiveSlots(live)
    ensures ListOk(SetWord(mem, s, k, w), base, head, live)
  {
    var mem' := SetWord(mem, s, k, w);
    forall i: nat | i < |live|
      ensures EntryStored(mem', base, live[i], EntryLink(base, live, i + 1))
    {
      assert live[i].slot in LiveSlots(live);
      EntryAfterWord(mem, base, live[i], EntryLink(base, live, i + 1), s, k, w);
    }
  }

  lemma LinkKeepsList(mem: Mem, base: nat, head: nat, live: seq<Entry>, f: nat, w: Word)
    requires ListOk(mem, base, head, live) && f < |mem|
    ensures ListOk(SetLink(mem, f, w), base, head, live)
  {
    forall i: nat | i < |live|
      ensures EntryStored(SetLink(mem, f, w), base, live[i], EntryLink(base, live, i + 1))
    {
      hide EntryStored;
      assert EntryStored(mem, base, live[i], EntryLink(base, live, i + 1));
      EntryAfterLink(mem, base, live[i], EntryLink(base, live, i + 1), f, w);
    }
  }

  lemma EntryAfterLink(mem: Mem, base: nat, e: Entry, next: nat, f: nat, w: Word)
    requires EntryStored(mem, base, e, next) && f < |mem|
    ensures EntryStored(SetLink(mem, f, w), base, e, next)
  {
  }

  /** A store to pointer, size or link keeps the in-use flags. */
  lemma WordKeepsSlots(mem: Mem, chain: seq<nat>, slots: set<Slot>, s: Slot, k: nat, w: Word)
    requires SlotsOk(mem, chain, slots) && s.frame < |mem| && s.idx < 127 && k < 4 && k != 2
    ensures SlotsOk(SetWord(mem, s, k, w), chain, slots)
  {
    forall t: Slot | t.frame in chain && t.idx < 127
      ensures InUse(SetWord(mem, s, k, w), t) == InUse(mem, t)
    {
      assert 4 * t.idx + 2 != 4 * s.idx + k;
    }
  }

  lemma LinkKeepsSlots(mem: Mem, chain: seq<nat>, slots: set<Slot>, f: nat, w: Word)
    requires SlotsOk(mem, chain, slots) && f < |mem|
    ensures SlotsOk(SetLink(mem, f, w), chain, slots)
  {
  }

  /** Setting or clearing one in-use flag. */
  lemma FlagStored(mem: Mem, chain: seq<nat>, slots: set<Slot>, s: Slot, w: Word)
    requires SlotsOk(mem, chain, slots) && s.frame in chain && s.idx < 127
    ensures SlotsOk(SetWord(mem, s, 2, w), chain, if w != 0 then slots + {s} else slots - {s})
  {
    forall t: Slot | t.frame in chain && t.idx < 127 && t != s
      ensures InUse(SetWord(mem, s, 2, w), t) == InUse(mem, t)
    {
      assert t.frame == s.frame ==> 4 * t.idx + 2 != 4 * s.idx + 2;
    }
  }

  // ---- list surgery

  lemma OneAfterWord(mem: Mem, base: nat, live: seq<Entry>, i: nat, k: nat, w: Word)
    requires SlotsDistinct(live) && i < |live| && k < |live| && i != k
    requires EntryStored(mem, base, live[i], EntryLink(base, live, i + 1)) && SlotPlaced(mem, live[k].slot)
    ensures EntryStored(SetWord(mem, live[k].slot, 3, w), base, live[i], EntryLink(base, live, i + 1))
  {
    assert live[i].slot != live[k].slot;
    EntryAfterWord(mem, base, live[i], EntryLink(base, live, i + 1), live[k].slot, 3, w);
  }

  lemma AppendDistinct(live: seq<Entry>, e: Entry)
    requires SlotsDistinct(live) && e.slot !in LiveSlots(live)
    ensures SlotsDistinct(live + [e])
  {
  }

  /** Linking a descriptor, already filled in with a null link, behind the last one. */
  lemma ListAppend(mem: Mem, base: nat, head: nat, live: seq<Entry>, e: Entry)
    requires ListOk(mem, base, head, live) && EntryStored(mem, base, e, 0) && |live| > 0
    requires e.slot !in LiveSlots(live) && SlotVa(base, e.slot) < ADDRESS_SPACE
    ensures SlotPlaced(mem, live[|live| - 1].slot)
    ensures var last := live[|live| - 1].slot;
            ListOk(SetWord(mem, last, 3, SlotVa(base, e.slot)), base, head, live + [e])
  {
    var n, live' := |live|, live + [e];
    assert SlotPlaced(mem, live[n - 1].slot) && EntryStored(mem, base, live[n - 1], EntryLink(base, live, n));
    hide EntryStored, SetWord;
    var last, w := live[n - 1].slot, SlotVa(base, e.slot);
    var mem' := SetWord(mem, last, 3, w);
    AppendDistinct(live, e);
    forall i: nat | i < n + 1
      ensures EntryStored(mem', base, live'[i], EntryLink(base, live', i + 1))
    {
      if i == n - 1 {
        EntryRelinked(mem, base, live[i], 0, w);
      } else {
        assert live'[i] == e || live'[i] == live[i];
        OneAfterWord(mem, base, live', i, n - 1, w);
      }
    }
  }

  function Without<T>(s: seq<T>, i: nat): (r: seq<T>)
    requires i < |s|
    ensures |r| == |s| - 1
    ensures forall j: nat :: j < i ==> r[j] == s[j]
    ensures forall j: nat :: i <= j < |r| ==> r[j] == s[j + 1]
  {
    s[..i] + s[i + 1..]
  }

  lemma WithoutDistinct(live: seq<Entry>, i: nat)
    requires SlotsDistinct(live) && i < |live|
    ensures SlotsDistinct(Without(live, i))
  {
  }

  lemma ListUnlinkHead(mem: Mem, base: nat, head: nat, live: seq<Entry>)
    requires ListOk(mem, base, head, live) && |live| > 0
    ensures ListOk(mem, base, EntryLink(base, live, 1), Without(live, 0))
  {
    WithoutDistinct(live, 0);
    var live' := Without(live, 0);
    forall j: nat | j < |live'|
      ensures EntryStored(mem, base, live'[j], EntryLink(base, live', j + 1))
    {
      assert EntryStored(mem, base, live[j + 1], EntryLink(base, live, j + 2));
    }
  }

  lemma ListUnlink(mem: Mem, base: nat, head: nat, live: seq<Entry>, i: nat)
    requires ListOk(mem, base, head, live) && 0 < i < |live|
    requires EntryLink(base, live, i + 1) < ADDRESS_SPACE
    ensures SlotPlaced(mem, live[i - 1].slot)
    ensures var prev := live[i - 1].slot;
            ListOk(SetWord(mem, prev, 3, EntryLink(base, live, i + 1)), base, head, Without(live, i))
  {
    var live', w := Without(live, i), EntryLink(base, live, i + 1);
    assert EntryStored(mem, base, live[i - 1], EntryLink(base, live, i));
    var prev := live[i - 1].slot;
    var mem' := SetWord(mem, prev, 3, w);
    WithoutDistinct(live, i);
    forall j: nat | j < |live'|
      ensures EntryStored(mem', base, live'[j], EntryLink(base, live', j + 1))
    {
      var k := if j < i then j else j + 1;
      assert EntryStored(mem, base, live[k], EntryLink(base, live, k + 1));
      UnlinkedEntry(mem, base, live, i, k);
      WithoutLink(base, live, i, j);
    }
  }

  lemma WithoutLink(base: nat, live: seq<Entry>, i: nat, j: nat)
    requires 0 < i < |live| && j < |live| - 1
    ensures var live' := Without(live, i);
            && live'[j] == live[if j < i then j else j + 1]
            && EntryLink(base, live', j + 1) == EntryLink(base, live, if j + 1 < i then j + 1 else j + 2)
  {
  }

  lemma UnlinkedEntry(mem: Mem, base: nat, live: seq<Entry>, i: nat, k: nat)
    requires SlotsDistinct(live) && 0 < i < |live| && k < |live| && k != i
    requires EntryStored(mem, base, live[i - 1], EntryLink(base, live, i))
    requires EntryStored(mem, base, live[k], EntryLink(base, live, k + 1))
    requires EntryLink(base, live, i + 1) < ADDRESS_SPACE
    ensures var prev := live[i - 1].slot;
            EntryStored(SetWord(mem, prev, 3, EntryLink(base, live, i + 1)), base, live[k],
                        EntryLink(base, live, if k == i - 1 then i + 1 else k + 1))
  {
    if k == i - 1 {
      EntryRelinked(mem, base, live[k], EntryLink(base, live, i), EntryLink(base, live, i + 1));
    } else {
      OneAfterWord(mem, base, live, k, i - 1, EntryLink(base, live, i + 1));
    }
  }

  // ---- chain surgery

  /** A zeroed frame joins the chain behind its last page. */
  lemma ChainAppend(mem: Mem, base: nat, head: nat, chain: seq<nat>, f: nat)
    requires ChainOk(mem, base, head, chain) && 0 < f < |mem| && f !in chain
    requires NextPageAt(mem, f) == 0 && PageVa(base, f) < ADDRESS_SPACE
    ensures |chain| == 0 ==> ChainOk(mem, base, PageVa(base, f), [f])
    ensures |chain| > 0 ==>
              && chain[|chain| - 1] < |mem|
              && ChainOk(SetLink(mem, chain[|chain| - 1], PageVa(base, f)), base, head, chain + [f])
  {
  }

  lemma ChainUnlinkHead(mem: Mem, base: nat, head: nat, chain: seq<nat>)
    requires ChainOk(mem, base, head, chain) && |chain| > 0
    ensures ChainOk(mem, base, ChainLink(base, chain, 1), Without(chain, 0))
  {
    var chain' := Without(chain, 0);
    forall j: nat | j < |chain'|
      ensures NextPageAt(mem, chain'[j]) == ChainLink(base, chain', j + 1)
    {
      assert NextPageAt(mem, chain[j + 1]) == ChainLink(base, chain, j + 2);
    }
  }

  lemma LinkAfterLink(mem: Mem, f: nat, w: nat, g: nat)
    requires f < |mem| && g < |mem| && w < ADDRESS_SPACE
    ensures |SetLink(mem, f, w)| == |mem|
    ensures NextPageAt(SetLink(mem, f, w), g) == if g == f then w else NextPageAt(mem, g)
  {
  }

  lemma DistinctWithout(chain: seq<nat>, i: nat)
    requires Distinct(chain) && i < |chain|
    ensures Distinct(Without(chain, i))
  {
  }

  lemma DistinctAt(chain: seq<nat>, j: nat, k: nat)
    requires Distinct(chain) && j < |chain| && k < |chain|
    ensures chain[j] == chain[k] <==> j == k
  {
  }

  /** Every remaining page links to the next remaining one. */
  lemma UnlinkedLink(mem: Mem, base: nat, head: nat, chain: seq<nat>, i: nat, j: nat)
    requires ChainOk(mem, base, head, chain) && 0 < i < |chain| && j < |chain| - 1
    requires ChainLink(base, chain, i + 1) < ADDRESS_SPACE
    ensures var mem', chain' := SetLink(mem, chain[i - 1], ChainLink(base, chain, i + 1)), Without(chain, i);
            chain'[j] < |mem'| && NextPageAt(mem', chain'[j]) == ChainLink(base, chain', j + 1)
  {
    hide SetLink, NextPageAt, PageVa, Distinct;
    var k := if j < i then j else j + 1;
    LinkAfterLink(mem, chain[i - 1], ChainLink(base, chain, i + 1), chain[k]);
    DistinctAt(chain, k, i - 1);
    assert NextPageAt(mem, chain[k]) == ChainLink(base, chain, k + 1);
  }

  lemma ChainUnlink(mem: Mem, base: nat, head: nat, chain: seq<nat>, i: nat)
    requires ChainOk(mem, base, head, chain) && 0 < i < |chain|
    requires ChainLink(base, chain, i + 1) < ADDRESS_SPACE
    ensures chain[i - 1] < |mem|
    ensures ChainOk(SetLink(mem, chain[i - 1], ChainLink(base, chain, i + 1)), base, head, Without(chain, i))
  {
    var chain' := Without(chain, i);
    var mem' := SetLink(mem, chain[i - 1], ChainLink(base, chain, i + 1));
    assert |mem'| == |mem|;
    hide SetLink, NextPageAt, PageVa, Distinct;
    DistinctWithout(chain, i);
    forall j: nat | j < |chain'|
      ensures NextPageAt(mem', chain'[j]) == ChainLink(base, chain', j + 1)
    {
      UnlinkedLink(mem, base, head, chain, i, j);
    }
  }
}
