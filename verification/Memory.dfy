/** Physical memory, the kernel's linear address arithmetic, and byte, word and
  bit access through kernel pointers. */
module Memory {
  import opened Bits

  const PAGE_SIZE: nat := 4096
  const KERNEL_BASE: nat := 0xFFFF_0000_0000_0000
  const ADDRESS_SPACE: nat := WORD_VALUES

  /** The linear map `KERNEL_BASE + pa` stays within 64 bits below this frame. */
  const MAX_FRAMES: nat := 0x10_0000_0000

  /** One 4 KiB page frame, as 512 words. */
  type Frame = f: seq<Word> | |f| == 512 witness seq(512, _ => 0)

  type Mem = seq<Frame>

  function ZeroFrame(): (fr: Frame)
    ensures forall j: nat :: j < 512 ==> fr[j] == 0
  {
    seq(512, _ => 0)
  }

  function NumPages(size: nat): nat {
    (size + PAGE_SIZE - 1) / PAGE_SIZE
  }

  /** The fewest pages that hold `size` bytes. */
  lemma PagesHold(size: nat, n: nat)
    ensures n >= NumPages(size) <==> n * 0x1000 >= size
  {
  }

  predicate InRun(f: nat, first: nat, n: nat) {
    first <= f < first + n
  }

  /** `[first, first + n)` as a set of frame numbers. */
  function Run(first: nat, n: nat): (s: set<nat>)
    ensures forall f :: f in s <==> first <= f < first + n
  {
    set f: nat {:trigger InRun(f, first, n)} | first <= f < first + n && InRun(f, first, n)
  }

  lemma {:induction false} RunSize(first: nat, n: nat)
    ensures |Run(first, n)| == n
  {
    if n == 0 {
      assert Run(first, 0) == {};
    } else {
      RunSize(first, n - 1);
      assert Run(first, n) == Run(first, n - 1) + {first + n - 1};
    }
  }

  /** Only the listed frames may differ. */
  ghost predicate SameOutside(a: Mem, b: Mem, frames: set<nat>) {
    |a| == |b| && forall f: nat :: f < |a| && f !in frames ==> a[f] == b[f]
  }

  // ---- mem_layout.c

  function VaToPa(base: nat, va: nat): nat {
    (va - base) % ADDRESS_SPACE
  }

  function PaToVa(base: nat, pa: nat): nat {
    (base + pa) % ADDRESS_SPACE
  }

  /** Kernel pointer to the start of frame `f`. */
  function PageVa(base: nat, f: nat): nat { base + f * PAGE_SIZE }

  /** The two translations are inverse on all 64-bit addresses, and below 2^48
    neither wraps. */
  lemma LinearMap(base: nat, a: nat)
    requires base == 0 || base == KERNEL_BASE
    requires a < ADDRESS_SPACE
    ensures VaToPa(base, PaToVa(base, a)) == a
    ensures PaToVa(base, VaToPa(base, a)) == a
    ensures a < MAX_FRAMES * PAGE_SIZE ==> PaToVa(base, a) == base + a
  {
  }

  /** The high half in numbers: physical address `pa`, of 48 bits, is at 0xFFFF_0000_0000_0000 + pa. */
  lemma HighHalfAddresses(pa: nat)
    requires pa < 0x1_0000_0000_0000
    ensures PaToVa(KERNEL_BASE, pa) == 0xFFFF_0000_0000_0000 + pa
    ensures VaToPa(KERNEL_BASE, 0xFFFF_0000_0000_0000 + pa) == pa
  {
  }

  // ---- bytes and bits inside frames

  /** Byte at offset `o` of a frame (little-endian words). */
  function ByteIn(fr: Frame, o: nat): (b: nat)
    requires o < PAGE_SIZE
    ensures b < 256
  {
    Pow2Values();
    Field(fr[o / 8], 8 * (o % 8), 8)
  }

  function WithByteIn(fr: Frame, o: nat, b: nat): Frame
    requires o < PAGE_SIZE && b < 256
  {
    Pow2Values();
    SetFieldBound(fr[o / 8], 8 * (o % 8), 8, b, 64);
    fr[o / 8 := SetField(fr[o / 8], 8 * (o % 8), 8, b)]
  }

  lemma ByteAfterByte(fr: Frame, o: nat, b: nat, o': nat)
    requires o < PAGE_SIZE && b < 256 && o' < PAGE_SIZE
    ensures ByteIn(WithByteIn(fr, o, b), o') == if o' == o then b else ByteIn(fr, o')
  {
    Pow2Values();
    var j, lane, j', lane' := o / 8, o % 8, o' / 8, o' % 8;
    assert o == 8 * j + lane && o' == 8 * j' + lane';
    if j' == j {
      assert WithByteIn(fr, o, b)[j] == SetField(fr[j], 8 * lane, 8, b);
      if lane' == lane {
        GetSetSame(fr[j], 8 * lane, 8, b);
      } else {
        GetSetOther(fr[j], 8 * lane, 8, b, 8 * lane', 8);
      }
    }
  }

  function ByteAt(mem: Mem, pa: nat): (b: nat)
    requires pa / PAGE_SIZE < |mem|
    ensures b < 256
  {
    ByteIn(mem[pa / PAGE_SIZE], pa % PAGE_SIZE)
  }

  function WithByte(mem: Mem, pa: nat, b: nat): (mem': Mem)
    requires pa / PAGE_SIZE < |mem| && b < 256
    ensures |mem'| == |mem|
  {
    mem[pa / PAGE_SIZE := WithByteIn(mem[pa / PAGE_SIZE], pa % PAGE_SIZE, b)]
  }

  /** Pages described by one frame of bitmap. */
  const BITS_PER_FRAME: nat := 32768

  /** A bitmap byte with bit `k` forced to `v`: `|= (1 << k)` or `&= ~(1 << k)`. */
  function WithBitInByte(byte: nat, k: nat, v: bool): (r: nat)
    requires byte < 256 && k < 8
    ensures r < 256
  {
    Pow2Values();
    SetFieldBound(byte, k, 1, if v then 1 else 0, 8);
    SetField(byte, k, 1, if v then 1 else 0)
  }

  lemma BitInByte(byte: nat, k: nat, v: bool, k': nat)
    requires byte < 256 && k < 8 && k' < 8
    ensures (Field(WithBitInByte(byte, k, v), k', 1) == 1) == if k' == k then v else Field(byte, k', 1) == 1
  {
    Pow2Values();
    if k' == k {
      GetSetSame(byte, k, 1, if v then 1 else 0);
    } else {
      GetSetOther(byte, k, 1, if v then 1 else 0, k', 1);
    }
  }

  predicate FrameBit(fr: Frame, i: nat)
    requires i < BITS_PER_FRAME
  {
    Field(ByteIn(fr, i / 8), i % 8, 1) == 1
  }

  function WithFrameBit(fr: Frame, i: nat, v: bool): Frame
    requires i < BITS_PER_FRAME
  {
    WithByteIn(fr, i / 8, WithBitInByte(ByteIn(fr, i / 8), i % 8, v))
  }

  lemma FrameBitAfter(fr: Frame, i: nat, v: bool, j: nat)
    requires i < BITS_PER_FRAME && j < BITS_PER_FRAME
    ensures FrameBit(WithFrameBit(fr, i, v), j) == if j == i then v else FrameBit(fr, j)
  {
    var byte := ByteIn(fr, i / 8);
    ByteAfterByte(fr, i / 8, WithBitInByte(byte, i % 8, v), j / 8);
    if j / 8 == i / 8 {
      assert j % 8 == i % 8 <==> j == i;
      BitInByte(byte, i % 8, v, j % 8);
    }
  }

  /** Bit `i` of the bitmap stored from frame `b` on: `bitmap[i / 8] & (1 << (i % 8))`. */
  predicate Bit(mem: Mem, b: nat, i: nat)
    requires b + i / BITS_PER_FRAME < |mem|
  {
    FrameBit(mem[b + i / BITS_PER_FRAME], i % BITS_PER_FRAME)
  }

  function WithBit(mem: Mem, b: nat, i: nat, v: bool): (mem': Mem)
    requires b + i / BITS_PER_FRAME < |mem|
    ensures |mem'| == |mem|
  {
    var f := b + i / BITS_PER_FRAME;
    mem[f := WithFrameBit(mem[f], i % BITS_PER_FRAME, v)]
  }

  lemma BitAfterBit(mem: Mem, b: nat, i: nat, v: bool, j: nat)
    requires b + i / BITS_PER_FRAME < |mem| && b + j / BITS_PER_FRAME < |mem|
    ensures Bit(WithBit(mem, b, i, v), b, j) == if j == i then v else Bit(mem, b, j)
  {
    var f := b + i / BITS_PER_FRAME;
    if j / BITS_PER_FRAME == i / BITS_PER_FRAME {
      FrameBitAfter(mem[f], i % BITS_PER_FRAME, v, j % BITS_PER_FRAME);
      assert j % BITS_PER_FRAME == i % BITS_PER_FRAME <==> j == i;
    }
  }

  /** Where the byte holding bit `i` lies. */
  lemma BitAddress(mem: Mem, b: nat, i: nat, v: bool)
    requires b + i / BITS_PER_FRAME < |mem|
    ensures var pa := b * PAGE_SIZE + i / 8;
            && pa / PAGE_SIZE < |mem|
            && Bit(mem, b, i) == (Field(ByteAt(mem, pa), i % 8, 1) == 1)
            && WithBit(mem, b, i, v) == WithByte(mem, pa, WithBitInByte(ByteAt(mem, pa), i % 8, v))
  {
    var pa, j := b * PAGE_SIZE + i / 8, i % BITS_PER_FRAME;
    assert pa / PAGE_SIZE == b + i / BITS_PER_FRAME;
    assert pa % PAGE_SIZE == j / 8 && i % 8 == j % 8;
  }

  /** Storing a zero byte into a bitmap clears its eight bits and no other. */
  lemma ZeroByte(mem: Mem, b: nat, o: nat, j: nat)
    requires b + o / PAGE_SIZE < |mem| && b + j / BITS_PER_FRAME < |mem|
    ensures var pa := b * PAGE_SIZE + o;
            && pa / PAGE_SIZE == b + o / PAGE_SIZE
            && Bit(WithByte(mem, pa, 0), b, j) == if j / 8 == o then false else Bit(mem, b, j)
  {
    var pa, f, i := b * PAGE_SIZE + o, b + o / PAGE_SIZE, j % BITS_PER_FRAME;
    assert pa / PAGE_SIZE == f && pa % PAGE_SIZE == o % PAGE_SIZE;
    BytePosition(o, j);
    hide WithByteIn, ByteIn, Field;
    if j / BITS_PER_FRAME == o / PAGE_SIZE {
      ByteAfterByte(mem[f], o % PAGE_SIZE, 0, i / 8);
      ZeroBit(i % 8);
    }
  }

  lemma BytePosition(o: nat, j: nat)
    ensures j % BITS_PER_FRAME / 8 < PAGE_SIZE
    ensures j / BITS_PER_FRAME == o / PAGE_SIZE ==> (j % BITS_PER_FRAME / 8 == o % PAGE_SIZE <==> j / 8 == o)
    ensures j / BITS_PER_FRAME != o / PAGE_SIZE ==> j / 8 != o
  {
  }

  lemma ZeroBit(k: nat)
    ensures Field(0, k, 1) == 0
  {
    DivModUnique(0, Pow2(k), 0, 0);
  }

  /** Frames that agree on every bitmap bit are the same frame. */
  lemma FrameBitsEqual(x: Frame, y: Frame)
    requires forall i: nat :: i < BITS_PER_FRAME ==> FrameBit(x, i) == FrameBit(y, i)
    ensures x == y
  {
    forall j: nat | j < 512
      ensures x[j] == y[j]
    {
      forall n: nat | n < 64
        ensures Field(x[j], n, 1) == Field(y[j], n, 1)
      {
        BitOfWord(x, j, n);
        BitOfWord(y, j, n);
        assert FrameBit(x, j * 64 + n) == FrameBit(y, j * 64 + n);
      }
      Pow2Values();
      WordsEqual(x[j], y[j], 64);
    }
  }

  lemma BitOfWord(fr: Frame, j: nat, n: nat)
    requires j < 512 && n < 64
    ensures FrameBit(fr, j * 64 + n) == (Field(fr[j], n, 1) == 1)
  {
    var i := j * 64 + n;
    var o := i / 8;
    assert o == j * 8 + n / 8 && i % 8 == n % 8;
    assert o / 8 == j && o % 8 == n / 8;
    BitOfField(fr[j], 8 * (n / 8), 8, n % 8);
  }

  // ---- the machine

  /** RAM together with the base of the kernel's linear map. A kernel pointer `va`
    denotes the physical address `VaToPa(kernelBase, va)`. */
  class Machine {
    var mem: Mem
    var kernelBase: nat

    ghost predicate Valid()
      reads this
    {
      |mem| <= MAX_FRAMES && (kernelBase == 0 || kernelBase == KERNEL_BASE)
    }

    constructor (ram: Mem)
      requires |ram| <= MAX_FRAMES
      ensures Valid() && mem == ram && kernelBase == 0
    {
      mem := ram;
      kernelBase := 0;
    }

    method UpdateKernelBaseVa()
      modifies this`kernelBase
      ensures kernelBase == KERNEL_BASE == 0xFFFF_0000_0000_0000
    {
      kernelBase := KERNEL_BASE;
    }

    ghost predicate InRam(va: nat)
      reads this
    {
      VaToPa(kernelBase, va) / PAGE_SIZE < |mem|
    }

    method LoadByte(va: nat) returns (b: nat)
      requires InRam(va)
      ensures b == ByteAt(mem, VaToPa(kernelBase, va)) && b < 256
    {
      b := ByteAt(mem, VaToPa(kernelBase, va));
    }

    method StoreByte(va: nat, b: nat)
      requires InRam(va) && b < 256
      modifies this`mem
      ensures mem == WithByte(old(mem), VaToPa(kernelBase, va), b)
    {
      mem := WithByte(mem, VaToPa(kernelBase, va), b);
    }

    /** `*(uint64_t *)va` for the word numbered `j` of frame `f`. */
    method LoadWord(va: nat, ghost f: nat, ghost j: nat) returns (w: Word)
      requires f < |mem| && j < 512
      requires VaToPa(kernelBase, va) == f * PAGE_SIZE + 8 * j
      ensures w == mem[f][j]
    {
      var pa := VaToPa(kernelBase, va);
      w := mem[pa / PAGE_SIZE][pa % PAGE_SIZE / 8];
    }

    method StoreWord(va: nat, w: Word, ghost f: nat, ghost j: nat)
      requires f < |mem| && j < 512
      requires VaToPa(kernelBase, va) == f * PAGE_SIZE + 8 * j
      modifies this`mem
      ensures mem == old(mem)[f := old(mem)[f][j := w]]
    {
      var pa := VaToPa(kernelBase, va);
      var g, k := pa / PAGE_SIZE, pa % PAGE_SIZE / 8;
      mem := mem[g := mem[g][k := w]];
    }

    /** Zeroes the whole page at `va`, entry by entry. */
    method ZeroPage(va: nat, ghost f: nat)
      requires Valid()
      requires f < |mem| && va == kernelBase + f * PAGE_SIZE
      modifies this`mem
      ensures mem == old(mem)[f := ZeroFrame()]
    {
      var i := 0;
      while i < 512
        invariant 0 <= i <= 512
        invariant |mem| == |old(mem)| && Valid()
        invariant forall g: nat :: g < |mem| && g != f ==> mem[g] == old(mem)[g]
        invariant forall j: nat :: j < i ==> mem[f][j] == 0
      {
        StoreWord(va + 8 * i, 0, f, i);
        i := i + 1;
      }
      assert mem[f] == ZeroFrame();
    }
  }
}
