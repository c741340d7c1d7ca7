/** From power-on to any later state: boot, then whatever clients ask for. */
module Lifetime {
  import opened Memory
  import opened PhysicalPages
  import opened PageAllocation
  import opened TranslationTree
  import opened PageTables
  import opened KernelMap
  import opened IdMap
  import opened DeviceTree
  import opened PageSetup
  import opened Boot
  import opened QemuVirt
  import opened MapLaws
  import opened MemoryState
  import opened MemoryRuns
  import opened MemorySystem

  lemma BootedTree(mem: Mem, t: Tree, p: Pool, image: Image, regions: seq<MemRegion>, serial: nat, b: nat,
                   kept: set<nat>)
    requires Booted(mem, t, p, image, regions, serial, b, kept)
    ensures TreeOk(mem, t) && Unrestricted(mem, t) && t.Tables() <= p.used && t.Tables() !! p.bitmaps
    ensures t.root == b + 7 < |mem| && LinearFrames(mem, t.root, image, p.managed)
    ensures forall f :: f in kept && f !in BitmapFrames(regions) && f != b + 7 ==> f in p.used - p.bitmaps - t.Tables()
  {
  }

  /** Pages of the image and the device tree, but for the root of the kernel's map and pages with a bitmap in them:
    pinned, and as the loader left them. */
  ghost predicate Untouched(kept: set<nat>, regions: seq<MemRegion>, b: nat, mem0: Mem, s: State) {
    && KeptIntact(mem0, s.mem, kept, regions, b)
    && forall f :: f in kept && f !in BitmapFrames(regions) && f != b + 7 ==> f in s.pinned
  }

  /** A run of a booted kernel: it starts in the state boot reached, with nothing handed out, and image and device
    tree are out of reach and unchanged to its end. */
  ghost predicate BootedRun(ops: seq<Op>, replies: seq<Reply>, trace: seq<State>, mem0: Mem, image: Image,
                            regions: seq<MemRegion>, serial: nat, b: nat, kept: set<nat>)
  {
    && IsRun(ops, replies, trace)
    && trace[0].base == KERNEL_BASE && trace[0].runs == map[] && trace[0].live == [] && trace[0].image == image
    && Booted(trace[0].mem, trace[0].tree, trace[0].pool, image, regions, serial, b, kept)
    && Untouched(kept, regions, b, mem0, trace[|ops|]) && Onward(trace[0], trace[|ops|])
  }

  /** Boot succeeds exactly for bootable inputs with enough pages for the tables, the device tree's size being the one
    that is read behind the bitmaps. Whatever is asked of the booted kernel then is a run of the state machine; in each
    of its states every pointer of the kernel into the allocator's memory is translated to the address that pointer
    arithmetic gives. */
  method BootAndRun(k: Mapper, regions: seq<MemRegion>, image: Image, b: nat, serial: nat, fdt: nat, valid: bool,
                    ops: seq<Op>)
    returns (ok: bool, kernel: Kernel?, replies: seq<Reply>, ghost trace: seq<State>)
    requires k.Valid() && k.m.kernelBase == 0 && k.pages.pool == EmptyPool()
    requires Layout(image, b) && image.end <= |k.m.mem| * PAGE_SIZE && k.m.mem[b + 1] == ZeroFrame()
    requires Separate(regions) && InRam(regions, |k.m.mem|) && fdt + 8 <= |k.m.mem| * PAGE_SIZE && OffPool(fdt, b)
    requires serial < MAP_LIMIT && forall i: nat :: i < |regions| ==> !regions[i].HasPage(serial)
    modifies k.m, k.pages
    ensures var size := SizeRead(old(k.m.mem), regions, image, fdt);
            && (ok <==>
                && valid && Bootable(regions, image, serial, fdt, size)
                && |FreeFrames(regions, image, fdt, size)| >= |KernelPaths(regions, serial)|)
            && (!ok ==> !valid || !Bootable(regions, image, serial, fdt, size) || k.pages.pool.Free() == {})
    ensures ok ==>
              && kernel != null && kernel.Valid() && kernel.m == k.m
              && BootedRun(ops, replies, trace, old(k.m.mem), image, regions, serial, b,
                           Kept(image, fdt, SizeRead(old(k.m.mem), regions, image, fdt), b))
              && trace[|ops|] == kernel.Now()
              && kernel.runs == RunsAfter(ops, replies, map[]) && kernel.blocks == BlocksAfter(ops, replies, map[])
              && kernel.pinned == PinnedAfter(ops, replies, trace)
              && Remembers(trace[0].mem, kernel.m.mem, b + 7, RequestsOf(ops), GrantedOf(ops, replies))
  {
    hide Booted, Bootable, Kept, Layout, Separate, InRam, Kernel.Valid, Kernel.Now, TreeOk, Unrestricted, LinearFrames,
         KernelPaths, FreeFrames, IsRun, RunsAfter, BlocksAfter, PinnedAfter, Remembers, Onward, SizeRead, KeptIntact,
         Untouched,
           BitmapFrames;
    ghost var t, mem0, kept := FreshTree(0), k.m.mem, Kept(image, fdt, SizeRead(k.m.mem, regions, image, fdt), b);
    kernel, replies, trace := null, [], [];
    ok, t := Boot.Boot(k, regions, image, b, serial, fdt, valid);
    if !ok {
      return;
    }
    BootedTree(k.m.mem, t, k.pages.pool, image, regions, serial, b, kept);
    kernel := new Kernel(k.pages, t, PaToVa(k.m.kernelBase, (b + 7) * PAGE_SIZE), image);
    ghost var s := kernel.Now();
    kernel.FieldsNow();
    replies, trace := kernel.RunAll(ops);
    RunBooks(ops, replies, trace);
    kernel.FieldsNow();
    StillUntouched(ops, replies, trace, kept, regions, b, mem0);
  }

  /** What is pinned stays, and stays as it is. */
  lemma StillUntouched(ops: seq<Op>, replies: seq<Reply>, trace: seq<State>, kept: set<nat>, regions: seq<MemRegion>,
                       b: nat, mem0: Mem)
    requires IsRun(ops, replies, trace) && KeptIntact(mem0, trace[0].mem, kept, regions, b)
    requires Onward(trace[0], trace[|ops|])
    requires forall f :: f in kept && f !in BitmapFrames(regions) && f != b + 7 ==> f in trace[0].pinned
    ensures Untouched(kept, regions, b, mem0, trace[|ops|])
  {
    hide Sane, Transition, BitmapFrames;
    forall f | f in trace[0].pinned
      ensures f in trace[|ops|].pinned && FrameKept(trace[0], trace[|ops|], f)
    {
      PinnedStay(ops, replies, trace, f);
    }
  }

  /** A device tree that lies off the bitmaps' and the identity map's pages, its offset in its first page leaving room,
    is
    found in full by boot, and reads to the end of every run as the loader left it, all its pages pinned. */
  lemma TreeOutlives(mem0: Mem, s: State, regions: seq<MemRegion>, image: Image, fdt: nat, b: nat)
    requires Header(mem0, fdt) && OffBitmaps(regions, fdt, TotalSize(mem0, fdt))
    requires Untouched(Kept(image, fdt, SizeRead(mem0, regions, image, fdt), b), regions, b, mem0, s)
    requires var size := TotalSize(mem0, fdt);
             && fdt % PAGE_SIZE + size <= NumPages(size) * PAGE_SIZE
             && Run(fdt / PAGE_SIZE, NumPages(size)) !! BitmapFrames(regions) + Run(b, 8)
    ensures var size := TotalSize(mem0, fdt);
            && SizeRead(mem0, regions, image, fdt) == size && BytesKept(mem0, s.mem, fdt, size)
            && Run(fdt / PAGE_SIZE, NumPages(size)) <= s.pinned
  {
    hide OffBitmaps, SizeRead, TotalSize, BitmapFrames, ByteIn, ImagePages;
    var size := TotalSize(mem0, fdt);
    SizeReadsBack(mem0, regions, image, fdt, size);
    ReserveCovers(fdt, size);
    forall f | f in Run(fdt / PAGE_SIZE, NumPages(size))
      ensures f in s.pinned && (f < |mem0| ==> s.mem[f] == mem0[f])
    {
      assert b + 7 in Run(b, 8) && Run(b, 7) <= Run(b, 8);
    }
    forall a: nat | fdt <= a < fdt + size && a / PAGE_SIZE < |mem0|
      ensures ByteAt(s.mem, a) == ByteAt(mem0, a)
    {
      assert Covered(fdt, size, a);
    }
  }

  /** The same on QEMU's virt machine, whatever is in its memory. */
  method PowerOn(ram: Mem, image: Image, b: nat, fdt: nat, valid: bool, ops: seq<Op>)
    returns (ok: bool, kernel: Kernel?, replies: seq<Reply>, ghost trace: seq<State>)
    requires |ram| == 0x48000 && fdt + 8 <= |ram| * PAGE_SIZE && OffPool(fdt, b)
    requires Layout(image, b) && QEMU_RAM.base <= image.start && image.end <= QEMU_RAM.base + QEMU_RAM.size
    requires ram[b + 1] == ZeroFrame()
    ensures ok <==> valid && Boots(image, fdt, SizeRead(ram, [QEMU_RAM], image, fdt))
    ensures ok ==>
              && kernel != null && kernel.Valid()
              && BootedRun(ops, replies, trace, ram, image, [QEMU_RAM], UART_BASE, b,
                           Kept(image, fdt, SizeRead(ram, [QEMU_RAM], image, fdt), b))
              && trace[|ops|] == kernel.Now()
              && kernel.runs == RunsAfter(ops, replies, map[]) && kernel.blocks == BlocksAfter(ops, replies, map[])
  {
    hide Kept, Kernel.Valid, Kernel.Now, Boots, Bootable, FreeFrames, KernelPaths, BootedRun, RunsAfter, BlocksAfter,
         Remembers, PinnedAfter, SizeRead;
    var m := new Machine(ram);
    var pages := new PageAllocator(m);
    var k := new Mapper(pages);
    var regions := [QEMU_RAM];
    BootsIff(image, fdt, SizeRead(ram, regions, image, fdt));
    ok, kernel, replies, trace := BootAndRun(k, regions, image, b, UART_BASE, fdt, valid, ops);
  }
}
