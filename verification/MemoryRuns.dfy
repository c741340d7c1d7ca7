/** Every run of the memory system as a run of a state machine, and what holds of all of them. */
module MemoryRuns {
  import opened Bits
  import opened Memory
  import opened PhysicalPages
  import opened PageAllocation
  import opened HeapModel
  import opened HeapOwnership
  import opened KernelHeap
  import opened Descriptors
  import opened TranslationTree
  import opened PageTables
  import opened KernelMap
  import opened MapLaws
  import opened MemoryState

  /** What clients ask of the kernel. */
  datatype Op =
    | AddRegion(memStart: nat, memSize: nat, check: bool, image: Image)
    | RemoveRegion(memStart: nat)
    | Reserve(start: nat, n: nat)
    | AllocPages(n: nat)
    | FreePages(first: nat, i: nat, n: nat)
    | Malloc(size: nat)
    | Free(ptr: nat)
    | Map(va: nat, pa: nat, perms: Permissions, memType: MemType)
    | WritePage(first: nat, i: nat, j: nat, w: Word)
    | WriteBlock(ptr: nat, i: nat, j: nat, w: Word)

  /** What they get: an address (0 for none), done or failed; or the operation was not theirs to ask for. */
  datatype Reply = At(addr: nat) | Done | Failed | Declined

  /** A live block starts at this pointer. */
  ghost predicate LiveAt(s: State, ptr: nat) {
    FirstsDistinct(s.live) && ptr in Blocks(s.base, s.live)
  }

  /** No page of the region that begins there is in use, but for its bitmap. */
  ghost predicate Idle(s: State, memStart: nat) {
    forall k: nat :: k < |s.regions| && s.regions[k].Region? && s.regions[k].first * PAGE_SIZE == memStart ==>
                  Run(s.regions[k].first, |s.regions[k].flags|) * s.pool.used <= s.pool.bitmaps
  }

  ghost predicate RegionThere(s: State, memStart: nat) {
    exists k: nat :: k < |s.regions| && s.regions[k].Region? && s.regions[k].first * PAGE_SIZE == memStart
  }

  /** What the code leaves to its callers: regions must be new and reachable, or idle when they go, sizes must not wrap,
    only what was handed out is freed or written, and no page of the allocator is mapped over. */
  ghost predicate Entitled(s: State, op: Op) {
    match op
    case AddRegion(memStart, memSize, check, image) =>
      && memStart + memSize <= |s.mem| * PAGE_SIZE && RegionClear(s.regions, memStart, memSize)
      && (s.base == KERNEL_BASE ==> LinearFrames(s.mem, s.tree.root, s.image, RegionFrames(memStart, memSize)))
    case RemoveRegion(memStart) => Idle(s, memStart)
    case Reserve(start, n) => start + n * PAGE_SIZE < ADDRESS_SPACE
    case AllocPages(n) => true
    case FreePages(f, i, n) => f in s.runs && n > 0 && i + n <= s.runs[f]
    case Malloc(size) => size <= SIZE_MAX
    case Free(ptr) => true
    case Map(va, pa, perms, memType) => OffLinear(s, va)
    case WritePage(first, i, j, w) => first in s.runs && i < s.runs[first] && j < 512
    case WriteBlock(ptr, i, j, w) => LiveAt(s, ptr) && i < NumPages(Blocks(s.base, s.live)[ptr]) && j < 512
  }

  ghost predicate SlotFree(s: State) {
    exists k: nat :: k < |s.regions| && s.regions[k].Absent?
  }

  ghost predicate Reservable(s: State, start: nat, n: nat) {
    exists k: nat :: k < |s.regions| && ReserveFits(s.regions[k], start, n)
  }

  /** map_page is granted: both addresses are aligned and enough pages are free for the tables that are missing. */
  ghost predicate Mappable(s: State, va: nat, pa: nat) {
    && pa % PAGE_SIZE == 0 && va % PAGE_SIZE == 0
    && s.tree.root < |s.mem| && |s.pool.Free()| >= Missing(s.mem, s.tree.root, 0, va)
  }

  /** One operation, its reply and its whole effect. */
  ghost predicate Transition(s: State, op: Op, reply: Reply, s': State) {
    if !Entitled(s, op) then reply == Declined && s' == s
    else
      match op
      case AddRegion(memStart, memSize, check, image) =>
        if RegionUsable(memStart, memSize, check, image) && SlotFree(s)
        then reply == Done && exists k: nat :: RegionJoined(s, s', k, memStart, memSize)
        else reply == Failed && RegionRejected(s, s', memStart, memSize)
      case RemoveRegion(memStart) =>
        if RegionThere(s, memStart) then reply == Done && exists k: nat :: RegionGone(s, s', k, memStart)
        else reply == Failed && s' == s
      case Reserve(start, n) =>
        if Reservable(s, start, n) then reply == Done && PagesPinned(s, s', start, n) else reply == Failed && s' == s
      case AllocPages(n) =>
        if n == 0 || NoFit(s.regions, n) then reply == At(0) && s' == s
        else reply.At? && reply.addr != 0 && PagesGiven(s, s', n, reply.addr)
      case FreePages(f, i, n) => reply == Done && PagesBack(s, s', f, i, n)
      case Malloc(size) =>
        reply.At? && if reply.addr == 0 then BlockRefused(s, s', size) else BlockMade(s, s', size, reply.addr)
      case Free(ptr) => reply == Done && if LiveAt(s, ptr) then BlockGone(s, s', ptr) else s' == s
      case Map(va, pa, perms, memType) =>
        && reply == (if Mappable(s, va, pa) then Done else Failed)
        && MapTried(s, s', va, pa, perms, memType, Mappable(s, va, pa))
      case WritePage(first, i, j, w) => reply == Done && WordWritten(s, s', first + i, j, w)
      case WriteBlock(ptr, i, j, w) => reply == Done && WordWritten(s, s', VaToPa(s.base, ptr) / PAGE_SIZE + i, j, w)
  }

  /** Intact, and the allocator's three views of its pages agree. */
  ghost predicate Sane(s: State) {
    && Intact(s) && Consistent(s.regions, s.pool)
    && |s.mem| <= MAX_FRAMES && (s.base == 0 || s.base == KERNEL_BASE)
    && forall f :: f in s.pool.managed ==> f < |s.mem|
  }

  /** A run: every state is sane, and each follows from the one before by its operation. */
  ghost predicate IsRun(ops: seq<Op>, replies: seq<Reply>, trace: seq<State>) {
    && |replies| == |ops| && |trace| == |ops| + 1
    && (forall i: nat :: i < |trace| ==> Sane(trace[i]))
    && forall i: nat :: i < |ops| ==> Transition(trace[i], ops[i], replies[i], trace[i + 1])
  }

  lemma RunNext(ops: seq<Op>, replies: seq<Reply>, trace: seq<State>, op: Op, reply: Reply, s: State)
    requires IsRun(ops, replies, trace) && Transition(trace[|ops|], op, reply, s) && Sane(s)
    ensures IsRun(ops + [op], replies + [reply], trace + [s])
  {
    hide Transition, Sane;
  }

  // ---- the clients' books

  /** Page runs handed out, after one more operation. */
  function RunsNext(op: Op, reply: Reply, runs: map<nat, nat>): map<nat, nat> {
    if op.AllocPages? && reply.At? && reply.addr != 0 then runs[reply.addr / PAGE_SIZE := op.n]
    else if op.FreePages? && reply.Done? && op.first in runs && op.i + op.n <= runs[op.first]
    then FreedPart(runs, op.first, op.i, op.n)
    else runs
  }

  /** Blocks handed out. */
  function BlocksNext(op: Op, reply: Reply, blocks: map<nat, nat>): map<nat, nat> {
    if op.Malloc? && reply.At? && reply.addr != 0 then blocks[reply.addr := op.size]
    else if op.Free? then blocks - {op.ptr}
    else blocks
  }

  /** Pages pinned: those of a granted reservation that were not in use. */
  function PinnedNext(op: Op, reply: Reply, used: set<nat>, pinned: set<nat>): set<nat> {
    if op.Reserve? && reply.Done? then pinned + (Run(op.start / PAGE_SIZE, op.n) - used) else pinned
  }

  function RunsAfter(ops: seq<Op>, replies: seq<Reply>, runs: map<nat, nat>): map<nat, nat>
    requires |ops| == |replies|
  {
    if ops == [] then runs
    else
      var n := |ops| - 1;
      RunsNext(ops[n], replies[n], RunsAfter(ops[..n], replies[..n], runs))
  }

  function BlocksAfter(ops: seq<Op>, replies: seq<Reply>, blocks: map<nat, nat>): map<nat, nat>
    requires |ops| == |replies|
  {
    if ops == [] then blocks
    else
      var n := |ops| - 1;
      BlocksNext(ops[n], replies[n], BlocksAfter(ops[..n], replies[..n], blocks))
  }

  ghost function PinnedAfter(ops: seq<Op>, replies: seq<Reply>, trace: seq<State>): set<nat>
    requires |ops| == |replies| && |trace| == |ops| + 1
  {
    if ops == [] then trace[0].pinned
    else
      var n := |ops| - 1;
      PinnedNext(ops[n], replies[n], trace[n].pool.used, PinnedAfter(ops[..n], replies[..n], trace[..n + 1]))
  }

  lemma OneBlockMore(s: State, s': State, size: nat, ptr: nat)
    requires FirstsDistinct(s.live) && FirstsDistinct(s'.live) && s'.base == s.base && BlockMade(s, s', size, ptr)
    ensures Blocks(s'.base, s'.live) == Blocks(s.base, s.live)[ptr := size] && ptr !in Blocks(s.base, s.live)
  {
    BlocksAppend(s.base, s.live, s'.live[|s.live|]);
  }

  lemma OneBlockLess(s: State, s': State, ptr: nat)
    requires FirstsDistinct(s.live) && FirstsDistinct(s'.live) && s'.base == s.base && BlockGone(s, s', ptr)
    ensures Blocks(s'.base, s'.live) == Blocks(s.base, s.live) - {ptr}
  {
    var i: nat :| i < |s.live| && ptr == PageVa(s.base, s.live[i].first) && s'.live == Without(s.live, i)
      && s.live[i].Frames() !! s'.pool.used;
    BlocksWithout(s.base, s.live, i);
  }

  lemma DistinctBlocks(s: State)
    requires Sane(s)
    ensures FirstsDistinct(s.live)
  {
    OwnedFirstsDistinct(s.chain, s.live, s.pool);
  }

  lemma MallocStep(s: State, size: nat, reply: Reply, s': State)
    requires Transition(s, Malloc(size), reply, s')
    ensures if size > SIZE_MAX then reply == Declined && s' == s
            else reply.At? && if reply.addr == 0 then BlockRefused(s, s', size) else BlockMade(s, s', size, reply.addr)
  {
    hide BlockRefused, BlockMade;
  }

  lemma FreeStep(s: State, ptr: nat, reply: Reply, s': State)
    requires Transition(s, Free(ptr), reply, s')
    ensures reply == Done && if LiveAt(s, ptr) then BlockGone(s, s', ptr) else s' == s
  {
    hide BlockGone, LiveAt;
  }

  /** The books after one operation follow from the operation and its reply. */
  ghost predicate BooksFollow(s: State, op: Op, reply: Reply, s': State) {
    && s'.base == s.base && FirstsDistinct(s.live) && FirstsDistinct(s'.live)
    && s'.runs == RunsNext(op, reply, s.runs) && s'.pinned == PinnedNext(op, reply, s.pool.used, s.pinned)
    && Blocks(s'.base, s'.live) == BlocksNext(op, reply, Blocks(s.base, s.live))
  }

  ghost predicate SaneStep(s: State, op: Op, reply: Reply, s': State) {
    Sane(s) && Sane(s') && Transition(s, op, reply, s')
  }

  lemma MallocBooks(s: State, size: nat, reply: Reply, s': State)
    requires FirstsDistinct(s.live) && FirstsDistinct(s'.live) && Transition(s, Malloc(size), reply, s')
    ensures BooksFollow(s, Malloc(size), reply, s')
  {
    hide Transition, FirstsDistinct, Blocks, KmallocFit, BlockGranted;
    MallocStep(s, size, reply, s');
    if reply.At? && reply.addr != 0 {
      OneBlockMore(s, s', size, reply.addr);
    }
  }

  lemma FreeBooks(s: State, ptr: nat, reply: Reply, s': State)
    requires FirstsDistinct(s.live) && FirstsDistinct(s'.live) && Transition(s, Free(ptr), reply, s')
    ensures BooksFollow(s, Free(ptr), reply, s')
  {
    hide Transition, FirstsDistinct, Blocks, BlockFreed;
    FreeStep(s, ptr, reply, s');
    if LiveAt(s, ptr) {
      OneBlockLess(s, s', ptr);
    }
  }

  lemma PlainBooks(s: State, op: Op, reply: Reply, s': State)
    requires FirstsDistinct(s.live) && FirstsDistinct(s'.live) && Transition(s, op, reply, s') && !op.Malloc?
             && !op.Free?
    ensures BooksFollow(s, op, reply, s')
  {
    hide PagesTaken, PagesReturned, PagesReserved, RegionAdded, RegionRefused, FramesTaken, FramesReturned, Mapped,
         NotMapped, Entitled, NoFit, RegionUsable, SlotFree, Reservable, Mappable, SameOutside, FirstsDistinct, Blocks;
  }

  lemma StepBooks(s: State, op: Op, reply: Reply, s': State)
    requires SaneStep(s, op, reply, s')
    ensures BooksFollow(s, op, reply, s')
  {
    hide Sane, FirstsDistinct, Blocks, Transition, BooksFollow;
    DistinctBlocks(s);
    DistinctBlocks(s');
    match op
    case Malloc(size) => MallocBooks(s, size, reply, s');
    case Free(ptr) => FreeBooks(s, ptr, reply, s');
    case _ => PlainBooks(s, op, reply, s');
  }

  lemma {:induction false} RunBooks(ops: seq<Op>, replies: seq<Reply>, trace: seq<State>)
    requires IsRun(ops, replies, trace)
    ensures var s, s' := trace[0], trace[|ops|];
            && s'.base == s.base && FirstsDistinct(s.live) && FirstsDistinct(s'.live)
            && s'.runs == RunsAfter(ops, replies, s.runs) && s'.pinned == PinnedAfter(ops, replies, trace)
            && Blocks(s'.base, s'.live) == BlocksAfter(ops, replies, Blocks(s.base, s.live))
  {
    hide Transition, Sane, RunsNext, BlocksNext, PinnedNext, FirstsDistinct, Blocks;
    if ops == [] {
      DistinctBlocks(trace[0]);
    } else {
      var n := |ops| - 1;
      RunBooks(ops[..n], replies[..n], trace[..n + 1]);
      StepBooks(trace[n], ops[n], replies[n], trace[n + 1]);
    }
  }

  // ---- memory

  /** The operation writes a word of frame `f`. */
  ghost predicate WritesTo(s: State, op: Op, f: nat) {
    match op
    case WritePage(first, i, j, w) => f == first + i
    case WriteBlock(ptr, i, j, w) => f == VaToPa(s.base, ptr) / PAGE_SIZE + i
    case _ => false
  }

  /** Frame `f` is a page of the allocator that is metadata neither before nor after, nor written by the operation. */
  ghost predicate Bystander(s: State, op: Op, s': State, f: nat) {
    && f < |s.mem| && f in s.pool.managed && !WritesTo(s, op, f)
    && f !in s.pool.bitmaps && f !in s'.pool.bitmaps && f !in Members(s.chain) && f !in Members(s'.chain)
    && (op.Map? ==> f !in s'.tree.Tables())
  }

  ghost predicate FrameKept(s: State, s': State, f: nat) {
    f < |s.mem| == |s'.mem| && s'.mem[f] == s.mem[f]
  }

  lemma AddQuiet(s: State, memStart: nat, memSize: nat, check: bool, image: Image, reply: Reply, s': State, f: nat)
    requires Sane(s) && Transition(s, AddRegion(memStart, memSize, check, image), reply, s')
    requires Bystander(s, AddRegion(memStart, memSize, check, image), s', f)
    ensures FrameKept(s, s', f)
  {
    hide Intact, RegionUsable, SlotFree, RegionClear, LinearFrames, Consistent;
    if Entitled(s, AddRegion(memStart, memSize, check, image)) {
      if RegionUsable(memStart, memSize, check, image) && SlotFree(s) {
        var k: nat :| RegionJoined(s, s', k, memStart, memSize);
      } else {
        RejectKeeps(s, s', memStart, memSize);
      }
    }
  }

  lemma MapQuiet(s: State, va: nat, pa: nat, perms: Permissions, memType: MemType, reply: Reply, s': State, f: nat)
    requires Transition(s, Map(va, pa, perms, memType), reply, s') && Bystander(s, Map(va, pa, perms, memType), s', f)
    ensures FrameKept(s, s', f)
  {
    hide TreeOk, TreeSafe, Unrestricted, Extends, Mappable, OffLinear, Leads, Walk, Missing, SameWalks;
    if Entitled(s, Map(va, pa, perms, memType)) {
      assert Built(s.mem, s.tree, s.pool, s'.mem, s'.tree, s'.pool);
    }
  }

  lemma HeapQuiet(s: State, op: Op, reply: Reply, s': State, f: nat)
    requires Transition(s, op, reply, s') && Bystander(s, op, s', f) && (op.Malloc? || op.Free?)
    ensures FrameKept(s, s', f)
  {
    hide Transition, NoFit, Rest, NoneEmpty, Without;
    match op
    case Malloc(size) => MallocStep(s, size, reply, s');
    case Free(ptr) => FreeStep(s, ptr, reply, s');
    case _ =>
  }

  lemma PlainQuiet(s: State, op: Op, reply: Reply, s': State, f: nat)
    requires Transition(s, op, reply, s') && Bystander(s, op, s', f) && !op.AddRegion? && !op.Map? && !op.Malloc?
             && !op.Free?
    ensures FrameKept(s, s', f)
  {
    hide PagesTaken, PagesReturned, PagesReserved, Entitled, NoFit, Reservable;
  }

  /** Bystanders read as before. */
  lemma StepQuiet(s: State, op: Op, reply: Reply, s': State, f: nat)
    requires SaneStep(s, op, reply, s') && Bystander(s, op, s', f)
    ensures FrameKept(s, s', f)
  {
    hide Sane, Transition, Bystander, FrameKept;
    match op
    case AddRegion(memStart, memSize, check, image) => AddQuiet(s, memStart, memSize, check, image, reply, s', f);
    case Map(va, pa, perms, memType) => MapQuiet(s, va, pa, perms, memType, reply, s', f);
    case Malloc(size) => HeapQuiet(s, op, reply, s', f);
    case Free(ptr) => HeapQuiet(s, op, reply, s', f);
    case _ => PlainQuiet(s, op, reply, s', f);
  }

  // ---- who writes where

  lemma BlockFrame(base: nat, chain: seq<nat>, live: seq<Entry>, p: Pool, frames: nat, k: nat, i: nat)
    requires Owns(chain, live, p) && k < |live| && i < live[k].Pages() && forall g :: g in p.used ==> g < frames
    ensures live[k].first + i in live[k].Frames() && live[k].first + i < frames
  {
    assert EntryOwned(live[k], p);
  }

  lemma BlockEntry(base: nat, live: seq<Entry>, ptr: nat) returns (k: nat)
    requires FirstsDistinct(live) && ptr in Blocks(base, live)
    ensures k < |live| && ptr == PageVa(base, live[k].first) && live[k].size == Blocks(base, live)[ptr]
  {
    k :| k < |live| && PageVa(base, live[k].first) == ptr;
    assert live[k] in live;
  }

  lemma BlockAddress(base: nat, first: nat, i: nat, j: nat, frames: nat)
    requires (base == 0 || base == KERNEL_BASE) && first + i < frames <= MAX_FRAMES && j < 512
    ensures VaToPa(base, PageVa(base, first)) == first * PAGE_SIZE && first * PAGE_SIZE / PAGE_SIZE == first
    ensures VaToPa(base, PageVa(base, first) + i * PAGE_SIZE + 8 * j) == (first + i) * PAGE_SIZE + 8 * j
  {
  }

  lemma BlockWriteOwn(base: nat, chain: seq<nat>, live: seq<Entry>, p: Pool, frames: nat, ptr: nat, i: nat)
    returns (k: nat)
    requires Owns(chain, live, p) && FirstsDistinct(live) && ptr in Blocks(base, live)
             && i < NumPages(Blocks(base, live)[ptr])
    requires frames <= MAX_FRAMES && (base == 0 || base == KERNEL_BASE) && forall g :: g in p.used ==> g < frames
    ensures k < |live| && ptr == PageVa(base, live[k].first) && VaToPa(base, ptr) / PAGE_SIZE == live[k].first
    ensures live[k].first + i in live[k].Frames()
  {
    k := BlockEntry(base, live, ptr);
    hide Blocks, FirstsDistinct;
    BlockFrame(base, chain, live, p, frames, k, i);
    hide Owns, NumPages;
    BlockAddress(base, live[k].first, i, 0, frames);
  }

  lemma OwnsIn(s: State)
    requires Sane(s)
    ensures Owns(s.chain, s.live, s.pool) && Owners(s.pool, s.chain, s.live, s.tree, s.held)
            && Ledger(s.pool, s.held, s.runs, s.pinned)
    ensures s.pool.bitmaps <= s.pool.used <= s.pool.managed && forall g :: g in s.pool.managed ==> g < |s.mem|
    ensures |s.mem| <= MAX_FRAMES && (s.base == 0 || s.base == KERNEL_BASE)
  {
  }

  /** A client writes to its own run. */
  lemma PageWriteOwn(p: Pool, held: set<nat>, runs: map<nat, nat>, pinned: set<nat>, first: nat, i: nat)
    requires Ledger(p, held, runs, pinned) && first in runs && i < runs[first]
    ensures first + i in Run(first, runs[first]) && first + i in held
  {
    assert first + i in Run(first, runs[first]);
  }

  /** A client's page, or a page of a block. */
  ghost predicate ClientPage(s: State, f: nat) {
    f in s.held || exists i: nat :: i < |s.live| && f in s.live[i].Frames()
  }

  lemma RunWriteOwn(s: State, first: nat, i: nat, j: nat, w: Word)
    requires Ledger(s.pool, s.held, s.runs, s.pinned) && Entitled(s, WritePage(first, i, j, w))
    ensures ClientPage(s, first + i) && first + i in Run(first, s.runs[first])
  {
    PageWriteOwn(s.pool, s.held, s.runs, s.pinned, first, i);
  }

  lemma BlockOwn(s: State, ptr: nat, i: nat, j: nat, w: Word) returns (k: nat)
    requires Owns(s.chain, s.live, s.pool) && Entitled(s, WriteBlock(ptr, i, j, w))
    requires |s.mem| <= MAX_FRAMES && (s.base == 0 || s.base == KERNEL_BASE)
             && forall g :: g in s.pool.used ==> g < |s.mem|
    ensures k < |s.live| && ptr == PageVa(s.base, s.live[k].first)
            && VaToPa(s.base, ptr) / PAGE_SIZE + i in s.live[k].Frames()
    ensures VaToPa(s.base, ptr) / PAGE_SIZE == s.live[k].first && ClientPage(s, s.live[k].first + i)
  {
    hide Owns, NumPages, Blocks, FirstsDistinct;
    k := BlockWriteOwn(s.base, s.chain, s.live, s.pool, |s.mem|, ptr, i);
  }

  lemma WritesToClients(s: State, op: Op, f: nat)
    requires Owns(s.chain, s.live, s.pool) && Ledger(s.pool, s.held, s.runs, s.pinned) && Entitled(s, op)
             && WritesTo(s, op, f)
    requires |s.mem| <= MAX_FRAMES && (s.base == 0 || s.base == KERNEL_BASE)
             && forall g :: g in s.pool.used ==> g < |s.mem|
    ensures ClientPage(s, f) && (op.WritePage? || op.WriteBlock?)
  {
    hide Owns, Ledger, Entitled, ClientPage, NumPages;
    match op
    case WritePage(first, i, j, w) => RunWriteOwn(s, first, i, j, w);
    case WriteBlock(ptr, i, j, w) =>
      var k := BlockOwn(s, ptr, i, j, w);
    case _ =>
  }

  lemma ClientsApart(s: State, f: nat)
    requires Owns(s.chain, s.live, s.pool) && Owners(s.pool, s.chain, s.live, s.tree, s.held) && ClientPage(s, f)
    ensures f !in s.tree.Tables() && f !in s.pool.bitmaps && f !in Members(s.chain) && f in s.pool.used
  {
    hide Owns, Owners, AtMostOneEmpty;
    OffMetadata(s.pool, s.chain, s.live, s.tree, s.held);
  }

  lemma TablesApart(s: State, f: nat)
    requires Owns(s.chain, s.live, s.pool) && Owners(s.pool, s.chain, s.live, s.tree, s.held) && f in s.tree.Tables()
    ensures f !in s.pool.bitmaps && f !in Members(s.chain) && f in s.pool.used
  {
    hide Owns, Owners;
    OffMetadata(s.pool, s.chain, s.live, s.tree, s.held);
  }

  /** Tables are pages of the allocator, no metadata of others, and out of the clients' reach. */
  lemma TableBystands(s: State, op: Op, s': State, f: nat)
    requires Sane(s) && Sane(s') && Entitled(s, op) && !op.Map? && s'.tree == s.tree && f in s.tree.Tables()
    ensures Bystander(s, op, s', f)
  {
    hide Sane, Entitled, WritesTo, Owns, Owners, Ledger, ClientPage;
    OwnsIn(s);
    OwnsIn(s');
    TablesApart(s, f);
    TablesApart(s', f);
    if WritesTo(s, op, f) {
      WritesToClients(s, op, f);
      ClientsApart(s, f);
    }
  }

  // ---- translations

  function RequestOf(op: Op): Request {
    if op.Map? then Request(op.va, op.pa, op.perms, op.memType)
      else Request(0, 0, Permissions(false, false, false, false), DEVICE)
  }

  function RequestsOf(ops: seq<Op>): (reqs: seq<Request>)
    ensures |reqs| == |ops| && forall i: nat :: i < |ops| ==> reqs[i] == RequestOf(ops[i])
  {
    seq(|ops|, i requires 0 <= i < |ops| => RequestOf(ops[i]))
  }

  /** Which operations are mappings that were granted. */
  function GrantedOf(ops: seq<Op>, replies: seq<Reply>): (granted: seq<bool>)
    requires |replies| == |ops|
    ensures |granted| == |ops| && forall i: nat :: i < |ops| ==> granted[i] == (ops[i].Map? && replies[i].Done?)
  {
    seq(|ops|, i requires 0 <= i < |ops| => ops[i].Map? && replies[i].Done?)
  }


  /** Translations change only by a granted mapping. */
  ghost predicate WalksFollow(s: State, op: Op, reply: Reply, s': State) {
    && s'.tree.root == s.tree.root
    && if op.Map? && reply.Done?
       then Mapped(s.mem, s.tree, s.pool, s'.mem, s'.tree, s'.pool, op.va, op.pa, op.perms, op.memType)
       else SameWalks(s.mem, s'.mem, s.tree.root)
  }

  lemma MapWalks(s: State, va: nat, pa: nat, perms: Permissions, memType: MemType, reply: Reply, s': State)
    requires s.tree.root < |s.mem| && Transition(s, Map(va, pa, perms, memType), reply, s')
    ensures WalksFollow(s, Map(va, pa, perms, memType), reply, s')
  {
    hide TreeOk, TreeSafe, Unrestricted, Mappable, OffLinear, Leads, WalkFrom, Missing;
  }

  lemma SameTreeOtherwise(s: State, op: Op, reply: Reply, s': State)
    requires Transition(s, op, reply, s') && !op.Map?
    ensures s'.tree == s.tree && (!Entitled(s, op) ==> s' == s)
  {
    hide PagesTaken, PagesReturned, PagesReserved, RegionAdded, RegionRefused, FramesTaken, FramesReturned,
         BlockGranted, BlockDenied, BlockFreed, Entitled, NoFit, RegionUsable, SlotFree, Reservable, LiveAt,
         SameOutside;
  }

  lemma RootIn(s: State)
    requires Sane(s)
    ensures s.tree.root < |s.mem| && TreeOk(s.mem, s.tree)
  {
  }

  lemma StepWalks(s: State, op: Op, reply: Reply, s': State)
    requires SaneStep(s, op, reply, s')
    ensures WalksFollow(s, op, reply, s')
  {
    RootIn(s);
    hide Sane, Transition, TreeOk, Entitled, Bystander;
    if op.Map? {
      MapWalks(s, op.va, op.pa, op.perms, op.memType, reply, s');
    } else {
      SameTreeOtherwise(s, op, reply, s');
      if Entitled(s, op) {
        TablesStay(s, op, reply, s');
      }
    }
  }

  lemma TableStays(s: State, op: Op, reply: Reply, s': State, f: nat)
    requires SaneStep(s, op, reply, s') && !op.Map? && Entitled(s, op) && s'.tree == s.tree && f in s.tree.Tables()
    ensures FrameKept(s, s', f)
  {
    hide Sane, Transition, Entitled, Bystander, FrameKept;
    TableBystands(s, op, s', f);
    StepQuiet(s, op, reply, s', f);
  }

  lemma TablesStay(s: State, op: Op, reply: Reply, s': State)
    requires SaneStep(s, op, reply, s') && !op.Map? && Entitled(s, op) && s'.tree == s.tree && TreeOk(s.mem, s.tree)
    ensures SameWalks(s.mem, s'.mem, s.tree.root)
  {
    hide Sane, Transition, Entitled, TreeOk;
    SameRam(s, op, reply, s');
    forall f | f in s.tree.Tables()
      ensures FrameKept(s, s', f)
    {
      TableStays(s, op, reply, s', f);
    }
    hide SaneStep;
    TablesSame(s.mem, s'.mem, s.tree);
  }

  lemma TablesSame(mem: Mem, mem': Mem, t: Tree)
    requires TreeOk(mem, t) && |mem'| == |mem| && forall f :: f in t.Tables() ==> f < |mem| && mem'[f] == mem[f]
    ensures SameWalks(mem, mem', t.root)
  {
    hide TreeOk;
    WalksElsewhere(mem, mem', t, set f: nat | f < |mem| && f !in t.Tables());
  }

  /** No operation changes the size of RAM. */
  lemma SameRam(s: State, op: Op, reply: Reply, s': State)
    requires Transition(s, op, reply, s')
    ensures |s'.mem| == |s.mem|
  {
    hide PagesTaken, PagesReturned, PagesReserved, Entitled, NoFit, RegionUsable, SlotFree, Reservable, LiveAt,
         Mappable, TreeOk, TreeSafe, Unrestricted, Leads, WalkFrom, Missing, Rest, Extends;
  }

  /** The run without its last operation, and that operation. */
  lemma RunFront(ops: seq<Op>, replies: seq<Reply>, trace: seq<State>)
    requires IsRun(ops, replies, trace) && ops != []
    ensures var n := |ops| - 1;
            IsRun(ops[..n], replies[..n], trace[..n + 1]) && SaneStep(trace[n], ops[n], replies[n], trace[n + 1])
  {
    hide Transition, Sane;
  }

  lemma {:induction false} RunWalks(ops: seq<Op>, replies: seq<Reply>, trace: seq<State>)
    requires IsRun(ops, replies, trace)
    ensures trace[|ops|].tree.root == trace[0].tree.root
    ensures Remembers(trace[0].mem, trace[|ops|].mem, trace[0].tree.root, RequestsOf(ops), GrantedOf(ops, replies))
  {
    hide Transition, Sane, Remembers;
    if ops == [] {
      RootIn(trace[0]);
      NothingRemembered(trace[0].mem, trace[0].tree);
      assert RequestsOf(ops) == [] && GrantedOf(ops, replies) == [];
    } else {
      RunFront(ops, replies, trace);
      hide IsRun, SaneStep, WalksFollow, RequestOf;
      var n := |ops| - 1;
      OpsSplit(ops, replies);
      RunWalks(ops[..n], replies[..n], trace[..n + 1]);
      StepWalks(trace[n], ops[n], replies[n], trace[n + 1]);
      StepRemembered(trace[0].mem, trace[n], ops[n], replies[n], trace[n + 1], RequestsOf(ops[..n]),
                     GrantedOf(ops[..n], replies[..n]));
    }
  }

  lemma OpsSplit(ops: seq<Op>, replies: seq<Reply>)
    requires ops != [] && |replies| == |ops|
    ensures var n := |ops| - 1;
            && RequestsOf(ops) == RequestsOf(ops[..n]) + [RequestOf(ops[n])]
            && GrantedOf(ops, replies) == GrantedOf(ops[..n], replies[..n]) + [ops[n].Map? && replies[n].Done?]
  {
    hide RequestOf;
  }

  lemma StepRemembered(mem0: Mem, s: State, op: Op, reply: Reply, s': State, reqs: seq<Request>, granted: seq<bool>)
    requires WalksFollow(s, op, reply, s') && Remembers(mem0, s.mem, s.tree.root, reqs, granted)
    ensures s'.tree.root == s.tree.root
    ensures Remembers(mem0, s'.mem, s.tree.root, reqs + [RequestOf(op)], granted + [op.Map? && reply.Done?])
  {
    hide Remembers, Mapped, SameWalks;
    if op.Map? && reply.Done? {
      RemembersGranted(mem0, s.mem, s.tree, s.pool, s'.mem, s'.tree, s'.pool, reqs, granted, RequestOf(op));
    } else {
      RemembersRefused(mem0, s.mem, s.tree.root, s'.mem, reqs, granted, RequestOf(op));
    }
  }

  // ---- what clients wrote stays

  /** Frame `f` is a page of a run that was handed out. */
  ghost predicate HandedOut(runs: map<nat, nat>, f: nat) {
    exists g :: g in runs && f in Run(g, runs[g])
  }

  /** Frame `f` is a client's, and its word `b` holds `v`. */
  ghost predicate PageWord(s: State, f: nat, b: nat, v: Word) {
    HandedOut(s.runs, f) && b < 512 && f < |s.mem| && s.mem[f][b] == v
  }

  /** The operation asks for frame `f` to be freed. */
  predicate Frees(op: Op, f: nat) {
    op.FreePages? && op.first + op.i <= f < op.first + op.i + op.n
  }

  predicate Overwrites(op: Op, f: nat, b: nat) {
    op.WritePage? && op.first + op.i == f && op.j == b
  }

  /** Word `b` of page `a` of a live block holds `v`. */
  ghost predicate BlockWord(s: State, ptr: nat, a: nat, b: nat, v: Word) {
    && LiveAt(s, ptr) && a < NumPages(Blocks(s.base, s.live)[ptr]) && b < 512
    && var f := VaToPa(s.base, ptr) / PAGE_SIZE + a; f < |s.mem| && s.mem[f][b] == v
  }

  lemma ClientStays(s: State, op: Op, reply: Reply, s': State, f: nat)
    requires SaneStep(s, op, reply, s') && ClientPage(s, f) && ClientPage(s', f) && !WritesTo(s, op, f)
    ensures FrameKept(s, s', f)
  {
    hide Sane, Transition, WritesTo, Owns, Owners, Ledger, ClientPage, FrameKept;
    OwnsIn(s);
    OwnsIn(s');
    ClientsApart(s, f);
    ClientsApart(s', f);
    StepQuiet(s, op, reply, s', f);
  }

  lemma DeclinedStays(s: State, op: Op, reply: Reply, s': State)
    requires Transition(s, op, reply, s') && !Entitled(s, op)
    ensures s' == s
  {
    hide Entitled;
  }

  lemma WriteStep(s: State, op: Op, reply: Reply, s': State)
    requires Transition(s, op, reply, s') && Entitled(s, op)
    ensures op.WritePage? ==> WordWritten(s, s', op.first + op.i, op.j, op.w)
    ensures op.WriteBlock? ==> WordWritten(s, s', VaToPa(s.base, op.ptr) / PAGE_SIZE + op.i, op.j, op.w)
  {
    hide Entitled, WordWritten;
  }

  /** What was handed out stays so until it is freed, and is not handed out twice. */
  lemma HandedOutStays(s: State, op: Op, reply: Reply, s': State, f: nat)
    requires SaneStep(s, op, reply, s') && HandedOut(s.runs, f) && !Frees(op, f)
    ensures HandedOut(s'.runs, f)
  {
    hide Sane, Transition, FirstsDistinct, Blocks, BooksFollow, Owns, Owners, HandedOut;
    OwnsIn(s);
    StepBooks(s, op, reply, s');
    if op.AllocPages? {
      AllocFresh(s, op.n, reply, s');
    }
    RunsFollow(s, op, reply, s');
    NextHandedOut(s.pool, s.held, s.runs, s.pinned, op, reply, f);
  }

  lemma RunsFollow(s: State, op: Op, reply: Reply, s': State)
    requires BooksFollow(s, op, reply, s')
    ensures s'.runs == RunsNext(op, reply, s.runs)
  {
  }

  lemma NextHandedOut(p: Pool, held: set<nat>, runs: map<nat, nat>, pinned: set<nat>, op: Op, reply: Reply, f: nat)
    requires Ledger(p, held, runs, pinned) && HandedOut(runs, f) && !Frees(op, f)
    requires op.AllocPages? && reply.At? && reply.addr != 0 ==> reply.addr / PAGE_SIZE !in runs
    ensures HandedOut(RunsNext(op, reply, runs), f)
  {
    var g :| g in runs && f in Run(g, runs[g]);
    var runs' := RunsNext(op, reply, runs);
    if runs' == runs {
    } else if op.AllocPages? {
      assert g in runs' && runs'[g] == runs[g];
    } else {
      PartHandedOut(p, held, runs, pinned, op.first, op.i, op.n, f, g);
    }
  }

  lemma PartHandedOut(p: Pool, held: set<nat>, runs: map<nat, nat>, pinned: set<nat>, first: nat, i: nat, n: nat,
                      f: nat, g: nat)
    requires Ledger(p, held, runs, pinned) && g in runs && f in Run(g, runs[g])
    requires first in runs && i + n <= runs[first] && !(first + i <= f < first + i + n)
    ensures HandedOut(FreedPart(runs, first, i, n), f)
  {
    var runs', back := FreedPart(runs, first, i, n), first + i + n;
    assert g in Run(g, runs[g]) && (i + n < runs[first] ==> back in Run(first, runs[first]));
    if g == first {
      if f < first + i {
        assert first in runs' && f in Run(first, runs'[first]);
      } else {
        assert back in runs' && f in Run(back, runs'[back]);
      }
    } else {
      assert g in runs' && runs'[g] == runs[g];
    }
  }

  lemma AllocFresh(s: State, n: nat, reply: Reply, s': State)
    requires Sane(s) && Transition(s, AllocPages(n), reply, s')
    ensures reply.At? && reply.addr != 0 ==> reply.addr / PAGE_SIZE !in s.runs
  {
    hide Intact, NoFit, PagesGiven, Consistent;
    if reply.At? && reply.addr != 0 {
      TakeKeeps(s, s', n, reply.addr);
    }
  }

  lemma PageOwned(s: State, f: nat)
    requires Sane(s) && HandedOut(s.runs, f)
    ensures ClientPage(s, f) && f in s.held && f < |s.mem|
  {
    hide Sane, Owns, Owners;
    OwnsIn(s);
    assert ClientPage(s, f);
    ClientsInRam(s, f);
  }

  lemma ClientsInRam(s: State, f: nat)
    requires Sane(s) && ClientPage(s, f)
    ensures f < |s.mem|
  {
    hide Sane, ClientPage;
    OwnsIn(s);
    ClientsApart(s, f);
  }

  /** Pages of runs, and of blocks, are different pages. */
  lemma WrittenApart(s: State, op: Op, f: nat)
    requires Sane(s) && Entitled(s, op) && WritesTo(s, op, f) && f in s.held
    ensures op.WritePage? && op.first + op.i == f
  {
    hide Sane, Owns, Owners, Ledger, Entitled, VaToPa;
    OwnsIn(s);
    match op
    case WriteBlock(ptr, i, j, w) => BlockWriteApart(s, ptr, i, j, w, f);
    case _ =>
  }

  lemma BlockWriteApart(s: State, ptr: nat, i: nat, j: nat, w: Word, f: nat)
    requires Owns(s.chain, s.live, s.pool) && Owners(s.pool, s.chain, s.live, s.tree, s.held)
    requires |s.mem| <= MAX_FRAMES && (s.base == 0 || s.base == KERNEL_BASE)
             && forall g :: g in s.pool.used ==> g < |s.mem|
    requires Entitled(s, WriteBlock(ptr, i, j, w)) && f in s.held
    ensures VaToPa(s.base, ptr) / PAGE_SIZE + i != f
  {
    hide Owns, Owners, Entitled, VaToPa, ClientPage;
    var k := BlockOwn(s, ptr, i, j, w);
    BlockOffHeld(s, k, VaToPa(s.base, ptr) / PAGE_SIZE + i);
  }

  lemma BlockOffHeld(s: State, k: nat, f: nat)
    requires Owns(s.chain, s.live, s.pool) && Owners(s.pool, s.chain, s.live, s.tree, s.held) && k < |s.live|
             && f in s.live[k].Frames()
    ensures f !in s.held
  {
    hide Owns, Owners;
    OffMetadata(s.pool, s.chain, s.live, s.tree, s.held);
  }

  /** A word of a client's page stays until that page is freed or the word overwritten. */
  lemma StepPageWord(s: State, op: Op, reply: Reply, s': State, f: nat, b: nat, v: Word)
    requires SaneStep(s, op, reply, s') && PageWord(s, f, b, v) && !Frees(op, f) && !Overwrites(op, f, b)
    ensures PageWord(s', f, b, v)
  {
    hide Sane, Transition, Entitled, WritesTo, HandedOut;
    HandedOutStays(s, op, reply, s', f);
    PageOwned(s, f);
    PageOwned(s', f);
    if !Entitled(s, op) {
      DeclinedStays(s, op, reply, s');
    } else if WritesTo(s, op, f) {
      WrittenApart(s, op, f);
      WriteStep(s, op, reply, s');
    } else {
      ClientStays(s, op, reply, s', f);
    }
  }

  /** Over any run of operations, too. */
  lemma {:induction false} PageWordStays(ops: seq<Op>, replies: seq<Reply>, trace: seq<State>, i: nat, j: nat,
                                         f: nat, b: nat, v: Word)
    requires IsRun(ops, replies, trace) && i <= j <= |ops| && PageWord(trace[i], f, b, v)
    requires forall k: nat :: i <= k < j ==> !Frees(ops[k], f) && !Overwrites(ops[k], f, b)
    ensures PageWord(trace[j], f, b, v)
    decreases j - i
  {
    hide Sane, Transition, PageWord, Frees, Overwrites;
    if i < j {
      StepPageWord(trace[i], ops[i], replies[i], trace[i + 1], f, b, v);
      PageWordStays(ops, replies, trace, i + 1, j, f, b, v);
    }
  }

  lemma JustWritten(s: State, first: nat, a: nat, b: nat, v: Word, s': State)
    requires Transition(s, WritePage(first, a, b, v), Done, s')
    ensures PageWord(s', first + a, b, v)
  {
    assert first + a in Run(first, s.runs[first]);
  }

  /** A word that was written reads back for as long as nobody entitled to it changes that. */
  lemma WrittenPageReads(ops: seq<Op>, replies: seq<Reply>, trace: seq<State>, i: nat, j: nat,
                         first: nat, a: nat, b: nat, v: Word)
    requires IsRun(ops, replies, trace) && i < j <= |ops| && ops[i] == WritePage(first, a, b, v) && replies[i] == Done
    requires forall k: nat :: i < k < j ==> !Frees(ops[k], first + a) && !Overwrites(ops[k], first + a, b)
    ensures PageWord(trace[j], first + a, b, v)
  {
    hide Sane, Transition, PageWord, Frees, Overwrites;
    JustWritten(trace[i], first, a, b, v, trace[i + 1]);
    PageWordStays(ops, replies, trace, i + 1, j, first + a, b, v);
  }

  // ---- what is pinned is never written

  lemma PinnedOwned(s: State, f: nat)
    requires Sane(s) && f in s.pinned
    ensures ClientPage(s, f) && f in s.held && !HandedOut(s.runs, f)
  {
    hide Sane, Owns, Owners;
    OwnsIn(s);
  }

  lemma StepPinned(s: State, op: Op, reply: Reply, s': State, f: nat)
    requires SaneStep(s, op, reply, s') && f in s.pinned
    ensures f in s'.pinned && FrameKept(s, s', f)
  {
    hide Sane, Transition, Entitled, WritesTo, HandedOut, BooksFollow;
    StepBooks(s, op, reply, s');
    PinnedFollows(s, op, reply, s');
    PinnedOwned(s, f);
    PinnedOwned(s', f);
    ClientsInRam(s, f);
    if !Entitled(s, op) {
      DeclinedStays(s, op, reply, s');
    } else {
      if WritesTo(s, op, f) {
        WrittenApart(s, op, f);
        WritesHandedOut(s, op, f);
      }
      ClientStays(s, op, reply, s', f);
    }
  }

  lemma WritesHandedOut(s: State, op: Op, f: nat)
    requires Entitled(s, op) && op.WritePage? && op.first + op.i == f
    ensures HandedOut(s.runs, f)
  {
    assert f in Run(op.first, s.runs[op.first]);
  }

  lemma PinnedFollows(s: State, op: Op, reply: Reply, s': State)
    requires BooksFollow(s, op, reply, s')
    ensures s.pinned <= s'.pinned
  {
    hide FirstsDistinct, Blocks;
  }

  /** Pages that were pinned stay so, and read for ever as they did. */
  lemma {:induction false} PinnedStay(ops: seq<Op>, replies: seq<Reply>, trace: seq<State>, f: nat)
    requires IsRun(ops, replies, trace) && f in trace[0].pinned
    ensures f in trace[|ops|].pinned && FrameKept(trace[0], trace[|ops|], f)
  {
    hide Transition, Sane;
    if ops == [] {
      PinnedOwned(trace[0], f);
      ClientsInRam(trace[0], f);
    } else {
      RunFront(ops, replies, trace);
      hide IsRun, SaneStep;
      var n := |ops| - 1;
      PinnedStay(ops[..n], replies[..n], trace[..n + 1], f);
      StepPinned(trace[n], ops[n], replies[n], trace[n + 1], f);
    }
  }

  // ---- blocks

  lemma BlockOwned(s: State, ptr: nat, a: nat) returns (k: nat)
    requires Owns(s.chain, s.live, s.pool) && Owners(s.pool, s.chain, s.live, s.tree, s.held)
    requires |s.mem| <= MAX_FRAMES && (s.base == 0 || s.base == KERNEL_BASE)
             && forall g :: g in s.pool.used ==> g < |s.mem|
    requires LiveAt(s, ptr) && a < NumPages(Blocks(s.base, s.live)[ptr])
    ensures k < |s.live| && ptr == PageVa(s.base, s.live[k].first) && VaToPa(s.base, ptr) / PAGE_SIZE == s.live[k].first
    ensures var f := VaToPa(s.base, ptr) / PAGE_SIZE + a; f in s.live[k].Frames() && ClientPage(s, f) && f < |s.mem|
  {
    hide Owns, Owners, NumPages, Blocks, FirstsDistinct, VaToPa, PageVa;
    k := BlockWriteOwn(s.base, s.chain, s.live, s.pool, |s.mem|, ptr, a);
    ClientsApart(s, s.live[k].first + a);
  }

  /** A live block stays, unless it is freed, and is not handed out twice. */
  lemma BlockStays(s: State, op: Op, reply: Reply, s': State, ptr: nat)
    requires SaneStep(s, op, reply, s') && LiveAt(s, ptr) && op != Free(ptr)
    ensures LiveAt(s', ptr) && s'.base == s.base && Blocks(s'.base, s'.live)[ptr] == Blocks(s.base, s.live)[ptr]
  {
    hide Sane, Transition, Blocks, FirstsDistinct, BooksFollow;
    StepBooks(s, op, reply, s');
    if op.Malloc? {
      MallocFresh(s, op.size, reply, s');
    }
    BlocksFollow(s, op, reply, s', ptr);
  }

  lemma BlocksFollow(s: State, op: Op, reply: Reply, s': State, ptr: nat)
    requires BooksFollow(s, op, reply, s') && LiveAt(s, ptr) && op != Free(ptr)
    requires op.Malloc? && reply.At? && reply.addr != 0 ==> reply.addr != ptr
    ensures LiveAt(s', ptr) && s'.base == s.base && Blocks(s'.base, s'.live)[ptr] == Blocks(s.base, s.live)[ptr]
  {
    hide FirstsDistinct, Blocks;
  }

  lemma MallocFresh(s: State, size: nat, reply: Reply, s': State)
    requires Sane(s) && Sane(s') && Transition(s, Malloc(size), reply, s')
    ensures reply.At? && reply.addr != 0 ==> FirstsDistinct(s.live) && reply.addr !in Blocks(s.base, s.live)
  {
    hide Sane, Transition, FirstsDistinct, Blocks, BlockMade, BlockRefused;
    DistinctBlocks(s);
    DistinctBlocks(s');
    MallocStep(s, size, reply, s');
    if reply.At? && reply.addr != 0 {
      MadeBase(s, s', size, reply.addr);
      OneBlockMore(s, s', size, reply.addr);
    }
  }

  lemma MadeBase(s: State, s': State, size: nat, ptr: nat)
    requires BlockMade(s, s', size, ptr)
    ensures s'.base == s.base
  {
    hide BlockGranted;
  }

  lemma BlocksApart(s: State, k: nat, l: nat, f: nat)
    requires Owns(s.chain, s.live, s.pool) && k < |s.live| && l < |s.live| && f in s.live[k].Frames()
             && f in s.live[l].Frames()
    ensures k == l
  {
    assert forall i: nat, j: nat :: i < |s.live| && j < |s.live| && i != j ==> s.live[i].Frames() !! s.live[j].Frames();
  }

  lemma PageWriteOff(s: State, first: nat, i: nat, j: nat, w: Word, k: nat, f: nat)
    requires Owns(s.chain, s.live, s.pool) && Owners(s.pool, s.chain, s.live, s.tree, s.held)
             && Ledger(s.pool, s.held, s.runs, s.pinned)
    requires Entitled(s, WritePage(first, i, j, w)) && k < |s.live| && f in s.live[k].Frames()
    ensures f != first + i
  {
    hide Owns, Owners;
    PageWriteOwn(s.pool, s.held, s.runs, s.pinned, first, i);
    BlockOffHeld(s, k, f);
  }

  lemma BlockWriteOff(s: State, ptr: nat, i: nat, j: nat, w: Word, k: nat, f: nat)
    requires Owns(s.chain, s.live, s.pool) && Entitled(s, WriteBlock(ptr, i, j, w)) && k < |s.live|
             && f in s.live[k].Frames()
    requires |s.mem| <= MAX_FRAMES && (s.base == 0 || s.base == KERNEL_BASE)
             && forall g :: g in s.pool.used ==> g < |s.mem|
    requires f == VaToPa(s.base, ptr) / PAGE_SIZE + i
    ensures ptr == PageVa(s.base, s.live[k].first) && VaToPa(s.base, ptr) / PAGE_SIZE == s.live[k].first
  {
    hide Owns, Entitled, VaToPa, ClientPage;
    var l := BlockOwn(s, ptr, i, j, w);
    BlocksApart(s, k, l, f);
  }

  lemma BlockWrittenApart(s: State, op: Op, ptr: nat, a: nat, k: nat)
    requires Owns(s.chain, s.live, s.pool) && Owners(s.pool, s.chain, s.live, s.tree, s.held)
             && Ledger(s.pool, s.held, s.runs, s.pinned)
    requires |s.mem| <= MAX_FRAMES && (s.base == 0 || s.base == KERNEL_BASE)
             && forall g :: g in s.pool.used ==> g < |s.mem|
    requires Entitled(s, op) && k < |s.live| && ptr == PageVa(s.base, s.live[k].first)
    requires VaToPa(s.base, ptr) / PAGE_SIZE == s.live[k].first
    requires var f := VaToPa(s.base, ptr) / PAGE_SIZE + a; f in s.live[k].Frames() && WritesTo(s, op, f)
    ensures op.WriteBlock? && op.ptr == ptr && op.i == a
  {
    hide Owns, Owners, Ledger, VaToPa, Entitled, PageVa;
    match op
    case WritePage(first, i, j, w) => PageWriteOff(s, first, i, j, w, k, s.live[k].first + a);
    case WriteBlock(ptr', i, j, w) => BlockWriteOff(s, ptr', i, j, w, k, s.live[k].first + a);
    case _ =>
  }

  lemma LiveBlock(s: State, ptr: nat, a: nat)
    requires Sane(s) && LiveAt(s, ptr) && a < NumPages(Blocks(s.base, s.live)[ptr])
    ensures var f := VaToPa(s.base, ptr) / PAGE_SIZE + a; ClientPage(s, f) && f < |s.mem|
  {
    hide Sane, LiveAt, NumPages, VaToPa, ClientPage, Blocks, Owns, Owners, Ledger;
    OwnsIn(s);
    var k := BlockOwned(s, ptr, a);
  }

  lemma Rewritten(s: State, op: Op, ptr: nat, a: nat)
    requires Sane(s) && Entitled(s, op) && LiveAt(s, ptr) && a < NumPages(Blocks(s.base, s.live)[ptr])
    requires WritesTo(s, op, VaToPa(s.base, ptr) / PAGE_SIZE + a)
    ensures op.WriteBlock? && op.ptr == ptr && op.i == a
  {
    hide Sane, LiveAt, NumPages, VaToPa, ClientPage, Blocks, Owns, Owners, Ledger, Entitled, WritesTo;
    OwnsIn(s);
    var k := BlockOwned(s, ptr, a);
    BlockWrittenApart(s, op, ptr, a, k);
  }

  /** A word of a block stays until it is overwritten or the block is freed. */
  lemma StepBlockWord(s: State, op: Op, reply: Reply, s': State, ptr: nat, a: nat, b: nat, v: Word)
    requires SaneStep(s, op, reply, s') && BlockWord(s, ptr, a, b, v)
    requires op != Free(ptr) && !(op.WriteBlock? && op.ptr == ptr && op.i == a && op.j == b)
    ensures BlockWord(s', ptr, a, b, v)
  {
    hide Sane, Transition, Entitled, WritesTo, LiveAt, NumPages, VaToPa, ClientPage, Blocks;
    BlockStays(s, op, reply, s', ptr);
    LiveBlock(s, ptr, a);
    LiveBlock(s', ptr, a);
    if !Entitled(s, op) {
      DeclinedStays(s, op, reply, s');
    } else if WritesTo(s, op, VaToPa(s.base, ptr) / PAGE_SIZE + a) {
      Rewritten(s, op, ptr, a);
      WriteStep(s, op, reply, s');
    } else {
      ClientStays(s, op, reply, s', VaToPa(s.base, ptr) / PAGE_SIZE + a);
    }
  }

  lemma {:induction false} BlockWordStays(ops: seq<Op>, replies: seq<Reply>, trace: seq<State>, i: nat, j: nat,
                                          ptr: nat, a: nat, b: nat, v: Word)
    requires IsRun(ops, replies, trace) && i <= j <= |ops| && BlockWord(trace[i], ptr, a, b, v)
    requires forall k: nat :: i <= k < j ==> ops[k] != Free(ptr)
    requires forall k: nat ::
               i <= k < j ==> !(ops[k].WriteBlock? && ops[k].ptr == ptr && ops[k].i == a && ops[k].j == b)
    ensures BlockWord(trace[j], ptr, a, b, v)
    decreases j - i
  {
    hide Sane, Transition, BlockWord;
    if i < j {
      StepBlockWord(trace[i], ops[i], replies[i], trace[i + 1], ptr, a, b, v);
      BlockWordStays(ops, replies, trace, i + 1, j, ptr, a, b, v);
    }
  }

  /** A word written to a block reads back until it is overwritten or the block is freed. */
  lemma WrittenBlockReads(ops: seq<Op>, replies: seq<Reply>, trace: seq<State>, i: nat, j: nat, ptr: nat, a: nat,
                          b: nat, v: Word)
    requires IsRun(ops, replies, trace) && i < j <= |ops| && ops[i] == WriteBlock(ptr, a, b, v) && replies[i] == Done
    requires forall k: nat :: i < k < j ==> ops[k] != Free(ptr)
    requires forall k: nat :: i < k < j ==> !(ops[k].WriteBlock? && ops[k].ptr == ptr && ops[k].i == a && ops[k].j == b)
    ensures BlockWord(trace[j], ptr, a, b, v)
  {
    hide Sane, Blocks, FirstsDistinct;
    assert Transition(trace[i], ops[i], replies[i], trace[i + 1]);
    hide IsRun;
    BlockWordStays(ops, replies, trace, i + 1, j, ptr, a, b, v);
  }
}
