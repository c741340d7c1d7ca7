/** The device tree's header as the kernel reads it, and what a bitmap laid over it makes of it. */
module DeviceTree {
  import opened Bits
  import opened Memory
  import opened PhysicalPages
  import opened PageAllocation
  import opened KernelMap
  import opened IdMap

  // ---- the header (section 5.2 of the Devicetree Specification, release 0.4)

  /** Byte order is big-endian. */
  function TotalOf(b4: nat, b5: nat, b6: nat, b7: nat): nat {
    ((b4 * 256 + b5) * 256 + b6) * 256 + b7
  }

  /** The field `totalsize`. */
  function TotalSize(mem: Mem, fdt: nat): (size: nat)
    requires fdt + 8 <= |mem| * PAGE_SIZE
    ensures size < 0x1_0000_0000
  {
    TotalOf(ByteAt(mem, fdt + 4), ByteAt(mem, fdt + 5), ByteAt(mem, fdt + 6), ByteAt(mem, fdt + 7))
  }

  /** fdt_totalsize */
  method ReadTotalSize(m: Machine, fdt: nat) returns (size: nat)
    requires m.Valid() && m.kernelBase == 0 && fdt + 8 <= |m.mem| * PAGE_SIZE
    ensures size == TotalSize(m.mem, fdt)
  {
    hide ByteAt, TotalOf, VaToPa;
    Identity(fdt + 4);
    Identity(fdt + 5);
    Identity(fdt + 6);
    Identity(fdt + 7);
    var b4 := m.LoadByte(fdt + 4);
    var b5 := m.LoadByte(fdt + 5);
    var b6 := m.LoadByte(fdt + 6);
    var b7 := m.LoadByte(fdt + 7);
    size := TotalOf(b4, b5, b6, b7);
  }

  lemma Identity(a: nat)
    requires a < ADDRESS_SPACE
    ensures VaToPa(0, a) == a
  {
  }

  /** What every accepted header has: the magic number, and a size that covers at least these two fields. */
  ghost predicate Header(mem: Mem, fdt: nat) {
    && fdt + 8 <= |mem| * PAGE_SIZE
    && ByteAt(mem, fdt) == 0xD0 && ByteAt(mem, fdt + 1) == 0x0D
    && ByteAt(mem, fdt + 2) == 0xFE && ByteAt(mem, fdt + 3) == 0xED
    && TotalSize(mem, fdt) >= 8
  }

  // ---- bitmaps, bit by bit

  /** The bitmap's bytes say which pages of the chunk are used; behind them its last page is as it was. */
  ghost predicate BitmapExact(mem0: Mem, mem: Mem, first: nat, pages: nat, used: set<nat>) {
    && first + BitmapPages(pages) <= |mem0| == |mem|
    && forall j: nat :: j < BitmapPages(pages) * BITS_PER_FRAME ==>
                     Bit(mem, first, j) ==
                     if j < 8 * BitmapBytes(pages) then j < pages && first + j in used else Bit(mem0, first, j)
  }

  lemma ExactElsewhere(mem0: Mem, mem: Mem, mem': Mem, first: nat, pages: nat, used: set<nat>, used': set<nat>,
                       changed: set<nat>)
    requires BitmapExact(mem0, mem, first, pages, used) && SameOutside(mem, mem', changed)
    requires Run(first, BitmapPages(pages)) !! changed
    requires forall f :: f in Run(first, pages) ==> (f in used <==> f in used')
    ensures BitmapExact(mem0, mem', first, pages, used')
  {
    hide FrameBit;
    forall j: nat | j < BitmapPages(pages) * BITS_PER_FRAME
      ensures Bit(mem', first, j) == Bit(mem, first, j) && (j < pages ==> (first + j in used <==> first + j in used'))
    {
      var f := first + j / BITS_PER_FRAME;
      assert f in Run(first, BitmapPages(pages));
      assert j < pages ==> first + j in Run(first, pages);
    }
  }

  lemma ExactMade(mem0: Mem, mem: Mem, mem': Mem, first: nat, pages: nat, used: set<nat>)
    requires BitmapMade(mem, mem', first, pages) && |mem0| == |mem| && pages > 0
    requires forall f: nat :: f in Run(first, BitmapPages(pages)) && f < |mem| ==> mem[f] == mem0[f]
    requires used !! Run(first, pages)
    ensures BitmapExact(mem0, mem', first, pages, used + Run(first, BitmapPages(pages)))
  {
    hide FrameBit;
    BitmapFits(pages);
    forall j: nat | j < BitmapPages(pages) * BITS_PER_FRAME
      ensures Bit(mem0, first, j) == Bit(mem, first, j) && (j < pages ==> first + j !in used)
    {
      assert first + j / BITS_PER_FRAME in Run(first, BitmapPages(pages));
      assert j < pages ==> first + j in Run(first, pages);
    }
  }

  lemma ExactMarked(mem0: Mem, mem: Mem, mem': Mem, first: nat, pages: nat, used: set<nat>, start: nat, n: nat)
    requires BitmapExact(mem0, mem, first, pages, used) && start + n <= pages
    requires BitsChanged(mem, mem', first, BitmapPages(pages), start, n, true)
    ensures BitmapExact(mem0, mem', first, pages, used + Run(first + start, n))
  {
    hide Bit;
  }

  // ---- byte by byte

  lemma ByteBit(mem: Mem, first: nat, o: nat, k: nat)
    requires first + o / PAGE_SIZE < |mem| && k < 8
    ensures (first * PAGE_SIZE + o) / PAGE_SIZE == first + o / PAGE_SIZE == first + (8 * o + k) / BITS_PER_FRAME
    ensures Bit(mem, first, 8 * o + k) == (Field(ByteAt(mem, first * PAGE_SIZE + o), k, 1) == 1)
  {
    var i := 8 * o + k;
    assert i / 8 == o && i % 8 == k && i / BITS_PER_FRAME == o / PAGE_SIZE;
    BitAddress(mem, first, i, true);
  }

  lemma BytesEqual(x: nat, y: nat)
    requires x < 256 && y < 256
    requires forall k: nat :: k < 8 ==> (Field(x, k, 1) == 1) == (Field(y, k, 1) == 1)
    ensures x == y
  {
    Pow2Values();
    assert forall k: nat :: k < 8 ==> Field(x, k, 1) == Field(y, k, 1);
    hide Field;
    WordsEqual(x, y, 8);
  }

  /** Address `a` is one of the bitmap's bytes. */
  predicate InBitmap(first: nat, pages: nat, a: nat) {
    first * PAGE_SIZE <= a < first * PAGE_SIZE + BitmapBytes(pages)
  }

  lemma OffsetIn(first: nat, pages: nat, a: nat)
    requires a / PAGE_SIZE in Run(first, BitmapPages(pages))
    ensures a >= first * PAGE_SIZE && (a - first * PAGE_SIZE) / PAGE_SIZE < BitmapPages(pages)
    ensures 8 * (a - first * PAGE_SIZE) + 7 < BitmapPages(pages) * BITS_PER_FRAME
  {
  }

  lemma InBitmapRun(first: nat, pages: nat, a: nat)
    requires InBitmap(first, pages, a)
    ensures a / PAGE_SIZE in Run(first, BitmapPages(pages))
  {
  }

  /** A byte behind the bitmap is as it was. */
  lemma ByteBehind(mem0: Mem, mem: Mem, first: nat, pages: nat, used: set<nat>, a: nat)
    requires BitmapExact(mem0, mem, first, pages, used)
    requires a / PAGE_SIZE in Run(first, BitmapPages(pages)) && !InBitmap(first, pages, a)
    ensures a / PAGE_SIZE < |mem| && ByteAt(mem, a) == ByteAt(mem0, a)
  {
    OffsetIn(first, pages, a);
    var o := a - first * PAGE_SIZE;
    hide Bit, ByteAt, Field, BitmapPages;
    forall k: nat | k < 8
      ensures (Field(ByteAt(mem, a), k, 1) == 1) == (Field(ByteAt(mem0, a), k, 1) == 1)
    {
      ByteBit(mem, first, o, k);
      ByteBit(mem0, first, o, k);
    }
    BytesEqual(ByteAt(mem, a), ByteAt(mem0, a));
  }

  /** A byte of the bitmap says which eight pages are used. */
  lemma ByteInBitmap(mem0: Mem, mem: Mem, first: nat, pages: nat, used: set<nat>, a: nat, k: nat)
    requires BitmapExact(mem0, mem, first, pages, used) && InBitmap(first, pages, a) && k < 8
    ensures a / PAGE_SIZE < |mem|
    ensures var j := 8 * (a - first * PAGE_SIZE) + k;
            (Field(ByteAt(mem, a), k, 1) == 1) == (j < pages && first + j in used)
  {
    InBitmapRun(first, pages, a);
    OffsetIn(first, pages, a);
    hide Bit, ByteAt, Field, BitmapPages;
    ByteBit(mem, first, a - first * PAGE_SIZE, k);
  }

  // ---- the bytes of a bitmap once the image is reserved

  /** Page `j` of the chunk holds the bitmap or the image. */
  predicate PageUsed(first: nat, pages: nat, image: Image, j: nat) {
    && j < pages
    && (j < BitmapPages(pages) || InRun(first + j, image.start / PAGE_SIZE, ImagePages(image)))
  }

  /** The low `k` bits of byte `o` of the bitmap. */
  function Packed(first: nat, pages: nat, image: Image, o: nat, k: nat): (b: nat)
    requires k <= 8
    ensures b < 256
  {
    if k == 0 then 0
    else WithBitInByte(Packed(first, pages, image, o, k - 1), k - 1, PageUsed(first, pages, image, 8 * o + k - 1))
  }

  lemma {:induction false} PackedBits(first: nat, pages: nat, image: Image, o: nat, k: nat, i: nat)
    requires k <= 8 && i < 8
    ensures (Field(Packed(first, pages, image, o, k), i, 1) == 1) == (i < k && PageUsed(first, pages, image, 8 * o + i))
  {
    hide PageUsed, Field, WithBitInByte;
    if k == 0 {
      ZeroBit(i);
    } else {
      PackedBits(first, pages, image, o, k - 1, i);
      BitInByte(Packed(first, pages, image, o, k - 1), k - 1, PageUsed(first, pages, image, 8 * o + k - 1), i);
    }
  }

  /** Exactly bitmap and image are used in this chunk. */
  ghost predicate OnlyImage(first: nat, pages: nat, image: Image, used: set<nat>) {
    forall j: nat :: j < pages ==> (first + j in used <==> PageUsed(first, pages, image, j))
  }

  lemma PackedByte(mem0: Mem, mem: Mem, first: nat, pages: nat, image: Image, used: set<nat>, a: nat)
    requires BitmapExact(mem0, mem, first, pages, used) && InBitmap(first, pages, a)
    requires OnlyImage(first, pages, image, used)
    ensures a / PAGE_SIZE < |mem| && ByteAt(mem, a) == Packed(first, pages, image, a - first * PAGE_SIZE, 8)
  {
    ByteInBitmap(mem0, mem, first, pages, used, a, 0);
    hide BitmapExact, InBitmap, BitmapPages, ByteAt, Field;
    var o := a - first * PAGE_SIZE;
    forall k: nat | k < 8
      ensures (Field(ByteAt(mem, a), k, 1) == 1) == (Field(Packed(first, pages, image, o, 8), k, 1) == 1)
    {
      ByteInBitmap(mem0, mem, first, pages, used, a, k);
      PackedBits(first, pages, image, o, 8, k);
      assert 8 * o + k < pages ==> (first + (8 * o + k) in used <==> PageUsed(first, pages, image, 8 * o + k));
    }
    BytesEqual(ByteAt(mem, a), Packed(first, pages, image, o, 8));
  }

  /** The bitmap of this region holds byte `a`. */
  predicate BitmapHolds(r: MemRegion, a: nat) {
    InBitmap(FirstFrame(r.base), WholePages(r.base, r.size), a)
  }

  /** Byte `a` once all regions are registered and the image is reserved. */
  ghost function ByteRead(mem: Mem, regions: seq<MemRegion>, image: Image, a: nat): nat
    requires a / PAGE_SIZE < |mem|
  {
    if i: nat :| i < |regions| && BitmapHolds(regions[i], a) then
      var first := FirstFrame(regions[i].base);
      Packed(first, WholePages(regions[i].base, regions[i].size), image, a - first * PAGE_SIZE, 8)
    else ByteAt(mem, a)
  }

  /** The size of the device tree as it is read then. */
  ghost function SizeRead(mem: Mem, regions: seq<MemRegion>, image: Image, fdt: nat): (size: nat)
    requires fdt + 8 <= |mem| * PAGE_SIZE
  {
    TotalOf(ByteRead(mem, regions, image, fdt + 4), ByteRead(mem, regions, image, fdt + 5),
            ByteRead(mem, regions, image, fdt + 6), ByteRead(mem, regions, image, fdt + 7))
  }

  /** No byte of the range is a byte of a bitmap. */
  predicate OffBitmaps(regions: seq<MemRegion>, start: nat, size: nat) {
    forall i: nat :: i < |regions| ==>
                  var first := FirstFrame(regions[i].base) * PAGE_SIZE;
                  start + size <= first || first + BitmapBytes(WholePages(regions[i].base, regions[i].size)) <= start
  }

  /** Off the bitmaps the size reads back. */
  lemma SizeReadsBack(mem: Mem, regions: seq<MemRegion>, image: Image, fdt: nat, size: nat)
    requires fdt + 8 <= |mem| * PAGE_SIZE && size >= 8 && OffBitmaps(regions, fdt, size)
    ensures SizeRead(mem, regions, image, fdt) == TotalSize(mem, fdt)
  {
    hide FirstFrame, WholePages, BitmapBytes, ByteAt, Packed;
    forall a: nat | fdt <= a < fdt + 8
      ensures a / PAGE_SIZE < |mem| && ByteRead(mem, regions, image, a) == ByteAt(mem, a)
    {
      assert forall i: nat :: i < |regions| ==> !BitmapHolds(regions[i], a);
    }
  }

  /** As far as they are RAM, the bytes of the range are what they were. */
  ghost predicate BytesKept(mem: Mem, mem': Mem, start: nat, size: nat) {
    && |mem| == |mem'|
    && forall a: nat :: start <= a < start + size && a / PAGE_SIZE < |mem| ==> ByteAt(mem', a) == ByteAt(mem, a)
  }

  // ---- no accepted header survives in a bitmap

  /** A bitmap's flags are set for a run from its start and for at most one other run. */
  ghost predicate TwoRuns(first: nat, pages: nat, used: set<nat>, prefix: nat, s: nat, n: nat) {
    forall f :: f in Run(first, pages) ==> (f in used <==> f < first + prefix || InRun(f, s, n))
  }

  /** The magic number begins with a byte that has two runs of its own. */
  lemma NoMagic(mem0: Mem, mem: Mem, first: nat, pages: nat, used: set<nat>, a: nat, prefix: nat, s: nat, n: nat)
    requires BitmapExact(mem0, mem, first, pages, used) && InBitmap(first, pages, a)
    requires TwoRuns(first, pages, used, prefix, s, n)
    ensures a / PAGE_SIZE < |mem| && ByteAt(mem, a) != 0xD0
  {
    ByteInBitmap(mem0, mem, first, pages, used, a, 3);
    ByteInBitmap(mem0, mem, first, pages, used, a, 4);
    ByteInBitmap(mem0, mem, first, pages, used, a, 5);
    ByteInBitmap(mem0, mem, first, pages, used, a, 6);
    MagicBits();
    hide BitmapExact, InBitmap, ByteAt, Field;
    var f := first + 8 * (a - first * PAGE_SIZE);
    assert f + 6 < first + pages ==> {f + 3, f + 4, f + 5, f + 6} <= Run(first, pages);
  }

  lemma MagicBits()
    ensures Field(0xD0, 3, 1) == 0 && Field(0xD0, 4, 1) == 1 && Field(0xD0, 5, 1) == 0 && Field(0xD0, 6, 1) == 1
  {
    Pow2Values();
    assert Pow2(4) == 16 && Pow2(5) == 32 && Pow2(6) == 64;
  }

  // ---- headers in memory

  /** A header whose first two fields are the bytes of word `j` of frame `f`. */
  lemma HeaderAt(mem: Mem, f: nat, j: nat, w: Word, high: nat)
    requires f < |mem| && j < 512 && mem[f][j] == w == high * 0x1_0000_0000 + 0xEDFE_0DD0
    requires TotalOf(high % 256, high / 0x100 % 256, high / 0x1_0000 % 256, high / 0x100_0000 % 256) >= 8
    ensures var fdt := f * PAGE_SIZE + 8 * j;
            && fdt + 8 <= |mem| * PAGE_SIZE && Header(mem, fdt)
            && TotalSize(mem, fdt) ==
               TotalOf(high % 256, high / 0x100 % 256, high / 0x1_0000 % 256, high / 0x100_0000 % 256)
  {
    var fdt := f * PAGE_SIZE + 8 * j;
    hide Field, ByteAt, TotalOf;
    FirstBytes(mem, f, j, fdt);
    Halves(w, high);
    LowBytes(w);
    HighBytes(w, high);
  }

  lemma Halves(w: nat, high: nat)
    requires w == high * 0x1_0000_0000 + 0xEDFE_0DD0
    ensures w / 0x1_0000_0000 == high && w % 0x1_0000_0000 == 0xEDFE_0DD0
  {
  }

  lemma FirstBytes(mem: Mem, f: nat, j: nat, fdt: nat)
    requires f < |mem| && j < 512 && fdt == f * PAGE_SIZE + 8 * j
    ensures fdt + 8 <= |mem| * PAGE_SIZE
    ensures var w := mem[f][j];
            && ByteAt(mem, fdt) == Field(w, 0, 8) && ByteAt(mem, fdt + 1) == Field(w, 8, 8)
            && ByteAt(mem, fdt + 2) == Field(w, 16, 8) && ByteAt(mem, fdt + 3) == Field(w, 24, 8)
            && ByteAt(mem, fdt + 4) == Field(w, 32, 8) && ByteAt(mem, fdt + 5) == Field(w, 40, 8)
            && ByteAt(mem, fdt + 6) == Field(w, 48, 8) && ByteAt(mem, fdt + 7) == Field(w, 56, 8)
  {
    hide Field, ByteAt;
    WordByte(mem, f, j, 0);
    WordByte(mem, f, j, 1);
    WordByte(mem, f, j, 2);
    WordByte(mem, f, j, 3);
    WordByte(mem, f, j, 4);
    WordByte(mem, f, j, 5);
    WordByte(mem, f, j, 6);
    WordByte(mem, f, j, 7);
  }

  lemma WordByte(mem: Mem, f: nat, j: nat, k: nat)
    requires f < |mem| && j < 512 && k < 8
    ensures var a := f * PAGE_SIZE + 8 * j + k; a / PAGE_SIZE == f && ByteAt(mem, a) == Field(mem[f][j], 8 * k, 8)
  {
    hide Field;
    var a := f * PAGE_SIZE + 8 * j + k;
    assert a / PAGE_SIZE == f && a % PAGE_SIZE == 8 * j + k;
    assert (8 * j + k) / 8 == j && (8 * j + k) % 8 == k;
  }

  lemma LowBytes(w: nat)
    requires w % 0x1_0000_0000 == 0xEDFE_0DD0
    ensures Field(w, 0, 8) == 0xD0 && Field(w, 8, 8) == 0x0D && Field(w, 16, 8) == 0xFE && Field(w, 24, 8) == 0xED
  {
    Pow2Values();
    BytePowers();
    hide Pow2;
    var q := w / 0x1_0000_0000;
    assert w / 0x100 == q * 0x100_0000 + 0xED_FE0D;
    assert w / 0x1_0000 == q * 0x1_0000 + 0xEDFE;
    assert w / 0x100_0000 == q * 0x100 + 0xED;
  }

  lemma HighBytes(w: nat, high: nat)
    requires w / 0x1_0000_0000 == high
    ensures Field(w, 32, 8) == high % 256 && Field(w, 40, 8) == high / 0x100 % 256
    ensures Field(w, 48, 8) == high / 0x1_0000 % 256 && Field(w, 56, 8) == high / 0x100_0000 % 256
  {
    Pow2Values();
    BytePowers();
    hide Pow2;
  }

  lemma BytePowers()
    ensures Pow2(0) == 1 && Pow2(16) == 0x1_0000 && Pow2(24) == 0x100_0000 && Pow2(32) == 0x1_0000_0000
    ensures Pow2(40) == 0x100_0000_0000 && Pow2(48) == 0x1_0000_0000_0000 && Pow2(56) == 0x100_0000_0000_0000
  {
    Pow2Values();
    Pow2Add(8, 8);
    Pow2Add(16, 8);
    Pow2Add(16, 16);
    Pow2Add(32, 8);
    Pow2Add(32, 16);
    Pow2Add(32, 24);
  }

  lemma ZeroBits(k: nat)
    requires k < 8
    ensures WithBitInByte(0, k, false) == 0
  {
    assert 0 / Pow2(k + 1) == 0 && 0 % Pow2(k) == 0;
  }
}
