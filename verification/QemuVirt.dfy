/** How much boot costs on QEMU's virt machine: 128 MiB of RAM at 0x4000_0000, the serial port at 0x0900_0000. */
module QemuVirt {
  import opened Memory
  import opened PhysicalPages
  import opened PageAllocation
  import opened TranslationTree
  import opened TableGrowth
  import opened KernelMap
  import opened IdMap
  import opened DeviceTree
  import opened PageSetup
  import opened Boot

  const UART_BASE: nat := 0x0900_0000

  /** Tables below the root of the kernel's map: two above all of RAM, one for each 2 MB of it, and two for the serial
    page. */
  const KERNEL_TABLES: nat := 68

  /** The linear map of low memory uses the paths of that memory itself. */
  lemma LowPrefix(pa: nat, n: nat)
    requires pa < MAP_LIMIT && n <= 3
    ensures Prefix(KERNEL_BASE + pa, n) == Prefix(pa, n)
  {
    LinearPage(pa);
    assert PageOf(pa) == pa / PAGE_SIZE;
    hide PageOf;
    SamePageIff(KERNEL_BASE + pa, pa);
    hide Index;
  }

  lemma LowPrefixes(pa: nat)
    requires pa < MAP_LIMIT
    ensures Prefixes(KERNEL_BASE + pa) == Prefixes(pa)
  {
    hide Prefix;
    LowPrefix(pa, 1);
    LowPrefix(pa, 2);
    LowPrefix(pa, 3);
  }

  /** Paths of the level 3 tables of the first `m` blocks of RAM. */
  function BlockPaths(m: nat): set<seq<nat>> {
    if m == 0 then {} else BlockPaths(m - 1) + {[0, 1, m - 1]}
  }

  lemma {:induction false} BlockMembers(m: nat)
    ensures forall q :: q in BlockPaths(m) ==> |q| == 3 && q[0] == 0 && q[1] == 1 && q[2] < m
    ensures |BlockPaths(m)| == m
  {
    if m > 0 {
      BlockMembers(m - 1);
      assert [0, 1, m - 1][2] == m - 1;
    }
  }

  lemma {:induction false} BlockIn(m: nat, k: nat)
    requires k < m
    ensures [0, 1, k] in BlockPaths(m)
  {
    if k < m - 1 {
      BlockIn(m - 1, k);
    }
  }

  lemma RamIndices(n: nat)
    requires n < 0x8000
    ensures var va := QEMU_RAM.base + n * PAGE_SIZE; Index(va, 0) == 0 && Index(va, 1) == 1 && Index(va, 2) == n / 512
  {
  }

  lemma RamPrefixes(n: nat)
    requires n < 0x8000
    ensures Prefixes(QEMU_RAM.base + n * PAGE_SIZE) == {[0]} + ({[0, 1]} + {[0, 1, n / 512]})
  {
    RamIndices(n);
    hide Index;
    var va := QEMU_RAM.base + n * PAGE_SIZE;
    assert Prefix(va, 1) == [0] && Prefix(va, 2) == [0, 1] && Prefix(va, 3) == [0, 1, n / 512];
  }

  lemma NextBlock(n: nat)
    requires n > 0
    ensures BlockPaths((n + 511) / 512) + {[0, 1, n / 512]} == BlockPaths((n + 512) / 512)
  {
    if n % 512 == 0 {
      assert (n + 511) / 512 == n / 512 && (n + 512) / 512 == n / 512 + 1;
    } else {
      assert (n + 511) / 512 == n / 512 + 1 == (n + 512) / 512;
    }
  }

  lemma Absorb<T>(a: set<T>, b: set<T>, p: set<T>, x: set<T>)
    ensures a + b + p + (a + (b + x)) == a + b + (p + x)
  {
  }

  lemma PagePathsNext(v: nat, n: nat)
    ensures PagePaths(v, n + 1) == PagePaths(v, n) + Prefixes(v + n * PAGE_SIZE)
  {
  }

  /** The paths of the first `n` pages of RAM. */
  lemma {:induction false} RamPaths(n: nat)
    requires 0 < n <= 0x8000
    ensures PagePaths(KERNEL_BASE + QEMU_RAM.base, n) == {[0]} + {[0, 1]} + BlockPaths((n + 511) / 512)
  {
    hide Prefixes, BlockPaths, PagePaths;
    var v, va := KERNEL_BASE + QEMU_RAM.base, QEMU_RAM.base + (n - 1) * PAGE_SIZE;
    LowPrefixes(va);
    RamPrefixes(n - 1);
    PagePathsNext(v, n - 1);
    assert v + (n - 1) * PAGE_SIZE == KERNEL_BASE + va;
    if n == 1 {
      NoPages(v);
      FirstBlock();
    } else {
      RamPaths(n - 1);
      NextBlock(n - 1);
      Absorb({[0]}, {[0, 1]}, BlockPaths((n + 510) / 512), {[0, 1, (n - 1) / 512]});
    }
  }

  lemma FirstBlock()
    ensures BlockPaths(1) == {[0, 1, 0]}
  {
    assert BlockPaths(0) == {};
  }

  lemma SerialPaths()
    ensures Prefixes(KERNEL_BASE + UART_BASE) == {[0]} + ({[0, 0]} + {[0, 0, 72]})
  {
    LowPrefixes(UART_BASE);
    assert Index(UART_BASE, 0) == 0 && Index(UART_BASE, 1) == 0 && Index(UART_BASE, 2) == 72;
    hide Index;
    assert Prefix(UART_BASE, 1) == [0] && Prefix(UART_BASE, 2) == [0, 0] && Prefix(UART_BASE, 3) == [0, 0, 72];
  }

  /** RAM and serial page together. */
  lemma KernelPathsAre(m: nat)
    requires m == 64
    ensures KernelPaths([QEMU_RAM], UART_BASE) == {[0]} + {[0, 1]} + BlockPaths(m) + ({[0]} + ({[0, 0]} + {[0, 0, 72]}))
  {
    hide Prefixes, PagePaths, BlockPaths;
    var n := NumPages(QEMU_RAM.size);
    assert n == 0x8000 && (n + 511) / 512 == m;
    RamPaths(n);
    SerialPaths();
    OneRegion(QEMU_RAM);
  }

  lemma OneRegion(r: MemRegion)
    ensures MapPaths([r]) == PagePaths(KERNEL_BASE + r.base, NumPages(r.size))
  {
    hide PagePaths;
    assert [r][..0] == [];
  }

  lemma KernelTables()
    ensures |KernelPaths([QEMU_RAM], UART_BASE)| == KERNEL_TABLES
  {
    var m := 64;
    KernelPathsAre(m);
    BlockMembers(m);
    var blocks := BlockPaths(m);
    hide BlockPaths, KernelPaths;
    var others: set<seq<nat>> := {[0]} + {[0, 1]} + {[0, 0]} + {[0, 0, 72]};
    Regroup({[0]}, {[0, 1]}, blocks, {[0, 0]}, {[0, 0, 72]});
    FourPaths();
    OthersApart(m);
    assert |blocks + others| == |blocks| + |others|;
  }

  lemma OthersApart(m: nat)
    ensures BlockPaths(m) !! {[0]} + {[0, 1]} + {[0, 0]} + {[0, 0, 72]}
  {
    BlockMembers(m);
    hide BlockPaths;
    assert |[0]| == 1 && |[0, 1]| == 2 && |[0, 0]| == 2 && [0, 0, 72][1] == 0;
  }

  lemma Regroup<T>(a: set<T>, b: set<T>, p: set<T>, c: set<T>, d: set<T>)
    ensures a + b + p + (a + (c + d)) == p + (a + b + c + d)
  {
  }

  lemma FourPaths()
    ensures |{[0]} + {[0, 1]} + {[0, 0]} + {[0, 0, 72]}| == 4
  {
    var a: set<seq<nat>>, b: set<seq<nat>>, c: set<seq<nat>>, d: set<seq<nat>> := {[0]}, {[0, 1]}, {[0, 0]},
      {[0, 0, 72]};
    assert |[0]| == 1 && |[0, 1]| == 2 && |[0, 0]| == 2 && |[0, 0, 72]| == 3 && [0, 1][1] == 1 && [0, 0][1] == 0;
    assert |a + b| == 2 && |a + b + c| == 3;
  }

  /** Pages of RAM in use once everything is reserved: the bitmap's, the image's and the device tree's. */
  function InUse(image: Image, fdt: nat, fdtSize: nat): set<nat> {
    Run(0x40000, 1) + Run(image.start / PAGE_SIZE, ImagePages(image)) + Run(fdt / PAGE_SIZE, NumPages(fdtSize))
  }

  /** The range lies in RAM, whole pages counted. */
  predicate InQemuRam(start: nat, n: nat) {
    QEMU_RAM.base <= start < QEMU_RAM.base + QEMU_RAM.size && start + n * PAGE_SIZE <= QEMU_RAM.base + QEMU_RAM.size
  }

  lemma RunInRam(start: nat, n: nat)
    requires InQemuRam(start, n)
    ensures Run(start / PAGE_SIZE, n) <= Run(0x40000, 0x8000)
  {
  }

  lemma QemuFree(image: Image, fdt: nat, fdtSize: nat)
    requires InQemuRam(image.start, ImagePages(image)) && InQemuRam(fdt, NumPages(fdtSize))
    ensures |FreeFrames([QEMU_RAM], image, fdt, fdtSize)| + |InUse(image, fdt, fdtSize)| == 0x8000
  {
    hide ImagePages, NumPages;
    QemuFrames();
    hide ManagedFrames, BitmapFrames, FirstFrame, WholePages, BitmapPages;
    RunInRam(image.start, ImagePages(image));
    RunInRam(fdt, NumPages(fdtSize));
    RunSize(0x40000, 0x8000);
    var ram, used := Run(0x40000, 0x8000), InUse(image, fdt, fdtSize);
    assert FreeFrames([QEMU_RAM], image, fdt, fdtSize) == ram - used;
    Parts(ram, used);
  }

  lemma Parts<T>(all: set<T>, some: set<T>)
    requires some <= all
    ensures |all - some| + |some| == |all|
  {
    assert all == (all - some) + some;
  }

  /** Boot succeeds exactly for an image inside one 2 MB block that leaves the bitmap's page alone, a device tree in
    RAM,
    and 68 pages that are in nobody's use. */
  predicate Boots(image: Image, fdt: nat, fdtSize: nat) {
    && image.start / 0x20_0000 == (image.end - 1) / 0x20_0000 && image.start >= QEMU_RAM.base + PAGE_SIZE
    && InQemuRam(fdt, NumPages(fdtSize)) && |InUse(image, fdt, fdtSize)| + KERNEL_TABLES <= 0x8000
  }

  /** A device tree behind the bitmap's page, which the bitmap fills, keeps its size. */
  lemma QemuSize(ram: Mem, image: Image, fdt: nat)
    requires QEMU_RAM.base + PAGE_SIZE <= fdt && fdt + 8 <= |ram| * PAGE_SIZE
    ensures SizeRead(ram, [QEMU_RAM], image, fdt) == TotalSize(ram, fdt)
  {
    QemuFrames();
    hide FirstFrame, WholePages, SizeRead, TotalSize;
    SizeReadsBack(ram, [QEMU_RAM], image, fdt, 8);
  }

  lemma ImageFits(image: Image)
    requires image.start % PAGE_SIZE == 0 && QEMU_RAM.base <= image.start < image.end <= QEMU_RAM.base + QEMU_RAM.size
    ensures InQemuRam(image.start, ImagePages(image))
  {
  }

  lemma OneBlockIff(image: Image)
    requires image.start % PAGE_SIZE == 0 && QEMU_RAM.base <= image.start < image.end <= QEMU_RAM.base + QEMU_RAM.size
    ensures |IdMapPaths(image, UART_BASE)| <= ID_MAP_NUM_PAGES - 1 <==>
              image.start / 0x20_0000 == (image.end - 1) / 0x20_0000
  {
    SerialApart(image);
    assert Stride(2) == 0x20_0000;
    hide IdMapPaths, Stride;
    IdMapBound(image, UART_BASE);
  }

  lemma QemuBootable(image: Image, fdt: nat, fdtSize: nat)
    requires image.start % PAGE_SIZE == 0 && QEMU_RAM.base <= image.start < image.end <= QEMU_RAM.base + QEMU_RAM.size
    ensures Bootable([QEMU_RAM], image, UART_BASE, fdt, fdtSize) <==>
            && image.start / 0x20_0000 == (image.end - 1) / 0x20_0000 && image.start >= QEMU_RAM.base + PAGE_SIZE
            && InQemuRam(fdt, NumPages(fdtSize))
  {
    ImageFits(image);
    OneBlockIff(image);
    assert UART_BASE % PAGE_SIZE == 0 && Aligned([QEMU_RAM]);
    hide Holdable, AllUsable, IdMapPaths, ImagePages, NumPages, Aligned;
    QemuHolds(image, image.start, ImagePages(image));
    QemuHolds(image, fdt, NumPages(fdtSize));
  }

  lemma BootsIff(image: Image, fdt: nat, fdtSize: nat)
    requires image.start % PAGE_SIZE == 0 && QEMU_RAM.base <= image.start < image.end <= QEMU_RAM.base + QEMU_RAM.size
    ensures Boots(image, fdt, fdtSize) <==>
            && Bootable([QEMU_RAM], image, UART_BASE, fdt, fdtSize)
            && |FreeFrames([QEMU_RAM], image, fdt, fdtSize)| >= |KernelPaths([QEMU_RAM], UART_BASE)|
  {
    ImageFits(image);
    hide Bootable, KernelPaths, FreeFrames, InUse, ImagePages, NumPages, InQemuRam;
    QemuBootable(image, fdt, fdtSize);
    KernelTables();
    if InQemuRam(fdt, NumPages(fdtSize)) {
      QemuFree(image, fdt, fdtSize);
    }
  }

  lemma SerialApart(image: Image)
    requires QEMU_RAM.base <= image.start < image.end <= QEMU_RAM.base + QEMU_RAM.size
    ensures UART_BASE / Stride(0) == image.start / Stride(0) && UART_BASE / Stride(1) < image.start / Stride(1)
  {
  }
}
