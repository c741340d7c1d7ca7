/** page_table.c: building four-level tables in pages of the page allocator. */
module PageTables {
  import opened Bits
  import opened Memory
  import opened PhysicalPages
  import opened PageAllocation
  import opened Descriptors
  import opened TranslationTree

  /** The tables are neither free nor bitmaps: nobody else will be given or write them. */
  ghost predicate TreeSafe(t: Tree, p: Pool) {
    t.Tables() !! p.Free() && t.Tables() !! p.bitmaps
  }

  ghost predicate Extends(t: Tree, t': Tree) {
    t'.root == t.root && forall f :: f in t.path ==> f in t'.path && t'.path[f] == t.path[f]
  }

  ghost predicate SameWalks(mem: Mem, mem': Mem, root: nat) {
    root < |mem| == |mem'| && forall va: nat :: Walk(mem', root, va) == Walk(mem, root, va)
  }

  /** No entry leading to a table carries a restriction, and valid leaves are page descriptors. */
  ghost predicate Unrestricted(mem: Mem, t: Tree) {
    && (forall f :: f in t.path ==> f < |mem|)
    && (forall f, i: nat :: f in t.path && i < 512 && |t.path[f]| < 3 && Valid(mem[f][i]) ==> NoRestriction(mem[f][i]))
    && (forall f, i: nat :: f in t.path && i < 512 && |t.path[f]| >= 3 && Valid(mem[f][i]) ==> TableOrPage(mem[f][i]))
  }

  /** Valid entries stay what they are. */
  ghost predicate EntriesKept(mem: Mem, mem': Mem, t: Tree) {
    && |mem| == |mem'|
    && (forall f :: f in t.path ==> f < |mem|)
    && forall f, i: nat :: f in t.path && i < 512 && Valid(mem[f][i]) ==> mem'[f][i] == mem[f][i]
  }

  /** The effect of get_next_level_table on entry `i` of table `f`, leading to table `c`. */
  ghost predicate Advanced(mem: Mem, t: Tree, p: Pool, mem': Mem, t': Tree, p': Pool, f: nat, i: nat, c: nat,
                           perms: Permissions)
  {
    && TreeOk(mem', t') && TreeSafe(t', p') && Extends(t, t') && SameWalks(mem, mem', t.root)
    && EntriesKept(mem, mem', t)
    && f in t.path && i < 512 && c in t'.path && t'.path[c] == t.path[f] + [i]
    && Valid(mem'[f][i]) && TableOrPage(mem'[f][i]) && TableFrame(mem'[f][i]) == c && TablePermits(mem'[f][i], perms)
    && SameOutside(mem, mem', p.bitmaps + t'.Tables())
    && (Unrestricted(mem, t) ==> Unrestricted(mem', t'))
    && (if Valid(mem[f][i]) then mem' == mem && t' == t && p' == p
        else && t'.Tables() == t.Tables() + {c} && c in p.Free() && c !in t.path
             && p' == p.(used := p.used + {c}) && mem'[c] == ZeroFrame())
  }

  lemma NewLinkUnrestricted(mem: Mem, mem': Mem, t: Tree, f: nat, i: nat, n: nat)
    requires TreeOk(mem, t) && TableInstalled(mem, mem', t, f, i, n) && Unrestricted(mem, t)
             && NoRestriction(mem'[f][i])
    ensures Unrestricted(mem', Grown(t, f, i, n))
  {
    ZeroInvalid();
    var t' := Grown(t, f, i, n);
    forall g, j: nat | g in t'.path && j < 512 && Valid(mem'[g][j])
      ensures if |t'.path[g]| < 3 then NoRestriction(mem'[g][j]) else TableOrPage(mem'[g][j])
    {
      if g != n && !(g == f && j == i) {
        assert mem'[g][j] == mem[g][j];
      }
    }
  }

  lemma InstallAdvances(mem: Mem, mem': Mem, t: Tree, p: Pool, f: nat, i: nat, n: nat, perms: Permissions)
    requires TreeOk(mem, t) && TreeSafe(t, p) && TableInstalled(mem, mem', t, f, i, n)
    requires n in p.Free() && n !in p.bitmaps && mem'[f][i] == TableDescriptor(n * PAGE_SIZE) && n < MAX_FRAMES
    ensures Advanced(mem, t, p, mem', Grown(t, f, i, n), p.(used := p.used + {n}), f, i, n, perms)
  {
    hide TreeOk, Unrestricted, SameWalks, TableDescriptor, EntriesKept, Field;
    TableDescriptorFields(n * PAGE_SIZE);
    InstallKeepsTree(mem, mem', t, f, i, n);
    InstallWalks(mem, mem', t, f, i, n);
    InstallEntries(mem, mem', t, f, i, n);
    if Unrestricted(mem, t) {
      NewLinkUnrestricted(mem, mem', t, f, i, n);
    }
    InstallSets(mem, mem', t, p, f, i, n);
  }

  lemma InstallWalks(mem: Mem, mem': Mem, t: Tree, f: nat, i: nat, n: nat)
    requires TreeOk(mem, t) && TableInstalled(mem, mem', t, f, i, n)
    ensures SameWalks(mem, mem', t.root)
  {
    forall va: nat
      ensures Walk(mem', t.root, va) == Walk(mem, t.root, va)
    {
      InstallKeepsWalks(mem, mem', t, f, i, n, t.root, va);
    }
  }

  lemma InstallEntries(mem: Mem, mem': Mem, t: Tree, f: nat, i: nat, n: nat)
    requires TreeOk(mem, t) && TableInstalled(mem, mem', t, f, i, n)
    ensures EntriesKept(mem, mem', t)
  {
  }

  lemma InstallSets(mem: Mem, mem': Mem, t: Tree, p: Pool, f: nat, i: nat, n: nat)
    requires TableInstalled(mem, mem', t, f, i, n) && TreeSafe(t, p) && n in p.Free() && n !in p.bitmaps
    ensures var t' := Grown(t, f, i, n);
            && Extends(t, t') && t'.Tables() == t.Tables() + {n} && TreeSafe(t', p.(used := p.used + {n}))
            && SameOutside(mem, mem', p.bitmaps + t'.Tables())
  {
    assert f in t.Tables();
  }

  lemma SameTables(mem: Mem, mem': Mem, t: Tree, changed: set<nat>)
    requires TreeOk(mem, t) && SameOutside(mem, mem', changed) && t.Tables() !! changed
    ensures forall f :: f in t.path ==> f < |mem| && mem'[f] == mem[f]
    ensures EntriesKept(mem, mem', t) && (Unrestricted(mem, t) ==> Unrestricted(mem', t))
  {
    hide Field;
    assert forall f :: f in t.path ==> f in t.Tables();
  }

  lemma WalksElsewhere(mem: Mem, mem': Mem, t: Tree, changed: set<nat>)
    requires TreeOk(mem, t) && SameOutside(mem, mem', changed) && t.Tables() !! changed
    ensures SameWalks(mem, mem', t.root)
  {
    forall va: nat
      ensures Walk(mem', t.root, va) == Walk(mem, t.root, va)
    {
      WalkElsewhere(mem, mem', t, changed, t.root, va);
    }
  }

  /** Bitmap updates before the table is installed make no difference. */
  lemma AdvancedAfter(mem0: Mem, mem: Mem, t: Tree, p: Pool, mem': Mem, t': Tree, p': Pool, f: nat, i: nat, c: nat,
                      perms: Permissions)
    requires TreeOk(mem0, t) && TreeSafe(t, p) && SameOutside(mem0, mem, p.bitmaps)
    requires Advanced(mem, t, p, mem', t', p', f, i, c, perms) && !Valid(mem[f][i])
    ensures Advanced(mem0, t, p, mem', t', p', f, i, c, perms)
  {
    hide TreeOk, Walk, Field, TablePermits;
    SameTables(mem0, mem, t, p.bitmaps);
    WalksElsewhere(mem0, mem, t, p.bitmaps);
  }

  class Mapper {
    const m: Machine
    const pages: PageAllocator

    ghost predicate Valid()
      reads this, m, pages
    {
      pages.m == m && pages.Valid()
    }

    constructor (pages: PageAllocator)
      requires pages.Valid()
      ensures this.pages == pages && m == pages.m && Valid()
    {
      this.pages := pages;
      m := pages.m;
    }

    /** allocate_new_table: a zeroed page, then the entry that leads to it. */
    method AllocateNewTable(entry: nat, ghost f: nat, ghost i: nat, ghost t: Tree, ghost perms: Permissions)
      returns (ok: bool, ghost t': Tree, ghost c: nat)
      requires Valid() && TreeOk(m.mem, t) && TreeSafe(t, pages.pool)
      requires f in t.path && i < 512 && |t.path[f]| < 3 && !Descriptors.Valid(m.mem[f][i])
      requires entry == PageVa(m.kernelBase, f) + 8 * i
      modifies pages`regions, pages`pool, m`mem
      ensures Valid()
      ensures !ok ==> m.mem == old(m.mem) && pages.pool == old(pages.pool) && t' == t && pages.pool.Free() == {}
      ensures ok ==> Advanced(old(m.mem), t, old(pages.pool), m.mem, t', pages.pool, f, i, c, perms)
      ensures ok ==> f < |m.mem| && m.mem[f][i] == c * 0x1000 + 3
    {
      hide TreeOk, TreeSafe, Inv, Advanced, PagesTaken, TableDescriptor;
      ghost var mem0, p0 := m.mem, pages.pool;
      t', c := t, 0;
      AllFacts(mem0, m.kernelBase, pages.chunks, pages.regions, p0);
      var pa := pages.PageAlloc(1);
      if pa == PHYS_ADDR_NULL {
        return false, t, 0;
      }
      ghost var mem1 := m.mem;
      c := pa / PAGE_SIZE;
      PlaceForTable(mem0, p0, mem1, pages.pool, t, f, i, pa, c);
      LinearMap(m.kernelBase, pa);
      var table := PaToVa(m.kernelBase, pa);
      pages.ZeroPage(table, c);
      var tablePa := VaToPa(m.kernelBase, table);
      EntryAddress(m.kernelBase, f, i, |m.mem|);
      pages.StoreWord(entry, TableDescriptor(tablePa), f, i);
      t' := Grown(t, f, i, c);
      TableBuilt(mem0, p0, mem1, m.mem, pages.pool, t, f, i, c, perms);
      TableInNumbers(c * PAGE_SIZE);
      return true, t', c;
    }

    /** get_next_level_table: follows the entry, building the table first if there is none. */
    method GetNextLevelTable(table: nat, i: nat, perms: Permissions, ghost f: nat, ghost t: Tree)
      returns (next: nat, ghost t': Tree, ghost c: nat)
      requires Valid() && TreeOk(m.mem, t) && TreeSafe(t, pages.pool)
      requires f in t.path && i < 512 && |t.path[f]| < 3 && table == PageVa(m.kernelBase, f)
      modifies pages`regions, pages`pool, m`mem
      ensures Valid()
      ensures next == 0 ==>
                && m.mem == old(m.mem) && pages.pool == old(pages.pool) && t' == t && f < |m.mem|
                && if Descriptors.Valid(m.mem[f][i]) then !TablePermits(m.mem[f][i], perms) else pages.pool.Free() == {}
      ensures next != 0 ==>
                && next == PageVa(m.kernelBase, c)
                && Advanced(old(m.mem), t, old(pages.pool), m.mem, t', pages.pool, f, i, c, perms)
    {
      hide TreeOk, TreeSafe, Inv, Advanced, Field, TablePermits;
      ghost var mem0, p0 := m.mem, pages.pool;
      TableInRam(mem0, t, f);
      EntryAddress(m.kernelBase, f, i, |m.mem|);
      var entry := table + 8 * i;
      var e := m.LoadWord(entry, f, i);
      t', c := t, TableFrame(e);
      if !Descriptors.Valid(e) {
        var ok;
        ok, t', c := AllocateNewTable(entry, f, i, t, perms);
        if !ok {
          return 0, t, c;
        }
      } else if !TablePermits(e, perms) {
        return 0, t, c;
      } else {
        AdvancedSame(mem0, t, p0, f, i, perms);
      }
      AdvancedFacts(mem0, t, p0, m.mem, t', pages.pool, f, i, c, perms, |m.mem|, m.kernelBase);
      e := m.LoadWord(entry, f, i);
      next := PaToVa(m.kernelBase, TableFrame(e) * PAGE_SIZE);
    }

    /** map_page */
    method MapPage(root: nat, va: nat, pa: nat, perms: Permissions, memType: MemType, ghost t: Tree)
      returns (ok: bool, ghost t': Tree)
      requires Valid() && TreeOk(m.mem, t) && TreeSafe(t, pages.pool)
      requires root == 0 || root == PageVa(m.kernelBase, t.root)
      modifies pages`regions, pages`pool, m`mem
      ensures Valid() && t.root < |old(m.mem)|
      ensures ok <==>
              && pa % PAGE_SIZE == 0 && va % PAGE_SIZE == 0 && root != 0
              && PathPermits(old(m.mem), t.root, 0, va, perms)
              && |old(pages.pool).Free()| >= Missing(old(m.mem), t.root, 0, va)
      ensures ok ==> Mapped(old(m.mem), t, old(pages.pool), m.mem, t', pages.pool, va, pa, perms, memType)
      ensures !ok ==> NotMapped(old(m.mem), t, old(pages.pool), m.mem, t', pages.pool)
      ensures !ok && pa % PAGE_SIZE == 0 && va % PAGE_SIZE == 0 && root != 0
              && PathPermits(old(m.mem), t.root, 0, va, perms) ==>
                pages.pool.Free() == {}
      ensures ok ==> LeafInNumbers(m.mem, t', va, pa, perms, memType)
    {
      hide TreeOk, TreeSafe, Inv, Advanced, Field, TablePermits, Stage, Mapped, NotMapped, PathPermits, Missing, Walk,
           PageDescriptor, LeafInNumbers;
      ghost var mem0, p0 := m.mem, pages.pool;
      t' := t;
      StageStart(mem0, t, p0, va, perms);
      StageStop(mem0, t, p0, m.mem, t, pages.pool, t.root, 0, va, perms);
      if pa % PAGE_SIZE != 0 || va % PAGE_SIZE != 0 {
        return false, t;
      }
      if root == 0 {
        return false, t;
      }
      var level1, t1, f1 := Descend(root, va, 0, perms, t.root, t, mem0, t, p0);
      if level1 == 0 {
        return false, t1;
      }
      var level2, t2, f2 := Descend(level1, va, 1, perms, f1, t1, mem0, t, p0);
      if level2 == 0 {
        return false, t2;
      }
      var level3, t3, f3 := Descend(level2, va, 2, perms, f2, t2, mem0, t, p0);
      if level3 == 0 {
        return false, t3;
      }
      WriteLeaf(level3, va, pa, perms, memType, f3, t3, mem0, t, p0);
      LeafNumbers(mem0, t, p0, m.mem, t3, pages.pool, va, pa, perms, memType);
      return true, t3;
    }

    /** The end of map_page: the level 3 entry. */
    method WriteLeaf(table: nat, va: nat, pa: nat, perms: Permissions, memType: MemType, ghost f: nat, ghost t: Tree,
                     ghost mem0: Mem, ghost t0: Tree, ghost p0: Pool)
      requires Valid() && table == PageVa(m.kernelBase, f) && pa % PAGE_SIZE == 0
      requires Stage(mem0, t0, p0, m.mem, t, pages.pool, f, 3, va, perms)
      modifies m`mem
      ensures Valid() && t0.root < |mem0|
      ensures PathPermits(mem0, t0.root, 0, va, perms) && |p0.Free()| >= Missing(mem0, t0.root, 0, va)
      ensures Mapped(mem0, t0, p0, m.mem, t, pages.pool, va, pa, perms, memType)
      ensures LeafHolds(m.mem, t, va, PageDescriptor(pa, perms, memType))
    {
      hide TreeOk, TreeSafe, Inv, Field, TablePermits, Stage, Mapped, PathPermits, Missing, PageDescriptor, LeafHolds;
      ghost var mem, p := m.mem, pages.pool;
      StageFacts(mem0, t0, p0, mem, t, p, f, 3, va, perms);
      NotABitmap(t, p, f);
      EntryAddress(m.kernelBase, f, Index(va, 3), |m.mem|);
      pages.StoreWord(table + 8 * Index(va, 3), PageDescriptor(pa, perms, memType), f, Index(va, 3));
      LeafMapped(mem0, t0, p0, mem, t, p, f, va, pa, perms, memType, m.mem);
      LeafThere(mem0, t0, p0, mem, t, p, f, va, perms, m.mem);
    }

    /** One level of map_page's descent, as a step of the whole mapping. */
    method Descend(table: nat, va: nat, level: nat, perms: Permissions, ghost f: nat, ghost t: Tree,
                   ghost mem0: Mem, ghost t0: Tree, ghost p0: Pool)
      returns (next: nat, ghost t': Tree, ghost c: nat)
      requires Valid() && level < 3 && table == PageVa(m.kernelBase, f)
      requires Stage(mem0, t0, p0, m.mem, t, pages.pool, f, level, va, perms)
      modifies pages`regions, pages`pool, m`mem
      ensures Valid() && t0.root < |mem0|
      ensures next == 0 ==> NotMapped(mem0, t0, p0, m.mem, t', pages.pool)
      ensures next == 0 ==> !(PathPermits(mem0, t0.root, 0, va, perms) && |p0.Free()| >= Missing(mem0, t0.root, 0, va))
      ensures next == 0 && PathPermits(mem0, t0.root, 0, va, perms) ==> pages.pool.Free() == {}
      ensures next != 0 ==> next == PageVa(m.kernelBase, c)
      ensures next != 0 ==> Stage(mem0, t0, p0, m.mem, t', pages.pool, c, level + 1, va, perms)
    {
      hide TreeOk, TreeSafe, Inv, Advanced, Field, TablePermits, Stage, NotMapped, PathPermits, Missing;
      ghost var mem, p := m.mem, pages.pool;
      StageFacts(mem0, t0, p0, mem, t, p, f, level, va, perms);
      next, t', c := GetNextLevelTable(table, Index(va, level), perms, f, t);
      if next == 0 {
        StageStop(mem0, t0, p0, mem, t, p, f, level, va, perms);
        StageBlocked(mem0, t0, p0, mem, t, p, f, level, va, perms);
      } else {
        StageStep(mem0, t0, p0, mem, t, p, f, level, va, perms, m.mem, t', pages.pool, c);
      }
    }
  }

  lemma TableInRam(mem: Mem, t: Tree, f: nat)
    requires TreeOk(mem, t) && f in t.path
    ensures 0 < f < |mem|
  {
  }

  lemma AdvancedSame(mem: Mem, t: Tree, p: Pool, f: nat, i: nat, perms: Permissions)
    requires TreeOk(mem, t) && TreeSafe(t, p) && f in t.path && i < 512 && |t.path[f]| < 3 && f < |mem|
    requires Valid(mem[f][i]) && TablePermits(mem[f][i], perms)
    ensures Advanced(mem, t, p, mem, t, p, f, i, TableFrame(mem[f][i]), perms)
  {
    hide Field, TablePermits, Linked;
    assert LinkOk(mem, t, f, i);
  }

  lemma AdvancedFacts(mem: Mem, t: Tree, p: Pool, mem': Mem, t': Tree, p': Pool, f: nat, i: nat, c: nat,
                      perms: Permissions, frames: nat, base: nat)
    requires Advanced(mem, t, p, mem', t', p', f, i, c, perms) && |mem'| == frames <= MAX_FRAMES
    requires base == 0 || base == KERNEL_BASE
    ensures f < |mem'| && TableFrame(mem'[f][i]) == c && 0 < c < |mem'|
    ensures PaToVa(base, c * PAGE_SIZE) == PageVa(base, c) > 0
  {
    hide Field, TablePermits, Linked, LinkOk;
    LinearMap(base, c * PAGE_SIZE);
  }

  // ---- the stages of a mapping

  /** Tables were only added, from free pages, and no other memory than theirs and bitmaps changed. */
  ghost predicate Built(mem0: Mem, t0: Tree, p0: Pool, mem: Mem, t: Tree, p: Pool) {
    && TreeOk(mem, t) && TreeSafe(t, p) && Extends(t0, t)
    && t.Tables() - t0.Tables() <= p0.Free()
    && p == p0.(used := p0.used + (t.Tables() - t0.Tables()))
    && SameOutside(mem0, mem, p0.bitmaps + t.Tables())
    && (Unrestricted(mem0, t0) ==> Unrestricted(mem, t))
  }

  /** Having reached table `f` at `level` on the way of `va`: no translation has changed, and what
    is still missing plus what was built accounts for all that was missing at the start. */
  ghost predicate Stage(mem0: Mem, t0: Tree, p0: Pool, mem: Mem, t: Tree, p: Pool, f: nat, level: nat, va: nat,
                        perms: Permissions)
  {
    && t0.root < |mem0| && level <= 3 && f in t.path && f < |mem|
    && Built(mem0, t0, p0, mem, t, p) && SameWalks(mem0, mem, t0.root)
    && |t.path[f]| == level && Below(t.path[f], va)
    && Missing(mem0, t0.root, 0, va) + |p.Free()| == Missing(mem, f, level, va) + |p0.Free()|
    && PathPermits(mem0, t0.root, 0, va, perms) == PathPermits(mem, f, level, va, perms)
    && OnTheWay(mem, t0.root, f, level, va, perms)
  }

  /** Permitted links lead from the root to table `f`. */
  ghost predicate OnTheWay(mem: Mem, root: nat, f: nat, level: nat, va: nat, perms: Permissions)
    decreases level
  {
    if level == 0 then f == root
    else
      exists g: nat :: && level <= 3 && OnTheWay(mem, root, g, level - 1, va, perms)
                  && Step(mem, g, level - 1, va, f) && TablePermits(mem[g][Index(va, level - 1)], perms)
  }

  ghost predicate NotMapped(mem0: Mem, t0: Tree, p0: Pool, mem: Mem, t: Tree, p: Pool) {
    Built(mem0, t0, p0, mem, t, p) && SameWalks(mem0, mem, t0.root)
  }

  /** The translation is the leaf for `pa`, through tables that permit it; no read permission, no translation. */
  predicate Leads(w: seq<Word>, pa: nat, perms: Permissions, memType: MemType) {
    if !perms.read then w == []
    else |w| == 4 && w[3] == PageDescriptor(pa, perms, memType) && forall k: nat :: k < 3 ==> TablePermits(w[k], perms)
  }

  /** The tree has a level 3 table on the way of `va`. */
  ghost predicate Reached(t: Tree, va: nat) {
    exists f :: f in t.path && |t.path[f]| == 3 && Below(t.path[f], va)
  }

  ghost predicate Mapped(mem0: Mem, t0: Tree, p0: Pool, mem: Mem, t: Tree, p: Pool, va: nat, pa: nat,
                         perms: Permissions, memType: MemType)
  {
    && t0.root < |mem0| == |mem| && Built(mem0, t0, p0, mem, t, p) && Reached(t, va)
    && |p.Free()| + Missing(mem0, t0.root, 0, va) == |p0.Free()|
    && Leads(Walk(mem, t0.root, va), pa, perms, memType)
    && forall va': nat :: !SamePage(va, va') ==> Walk(mem, t0.root, va') == Walk(mem0, t0.root, va')
  }

  /** The entry of `va` in its level 3 table. */
  ghost predicate LeafHolds(mem: Mem, t: Tree, va: nat, word: nat) {
    exists f :: f in t.path && |t.path[f]| == 3 && Below(t.path[f], va) && f < |mem|
                && mem[f][va / 0x1000 % 512] == word
  }

  lemma LeafThere(mem0: Mem, t0: Tree, p0: Pool, mem: Mem, t: Tree, p: Pool, f: nat, va: nat, perms: Permissions,
                  mem': Mem)
    requires Stage(mem0, t0, p0, mem, t, p, f, 3, va, perms) && |mem'| == |mem|
    ensures f < |mem'| && LeafHolds(mem', t, va, mem'[f][Index(va, 3)])
  {
    hide Built, SameWalks, Missing, PathPermits, OnTheWay;
    Indices(va, 3);
  }

  /** The whole leaf as a number, in its table and, if it is readable, at the end of the walk. */
  ghost predicate LeafInNumbers(mem: Mem, t: Tree, va: nat, pa: nat, perms: Permissions, memType: MemType) {
    var word := pa % 0x4_0000_0000_0000 + 0x402 + (if perms.read then 1 else 0)
                + (if memType == NORMAL then 0x304 else 0) + (if perms.execute then 0 else 0x60_0000_0000_0000)
                + (if !perms.read then 0
                   else if perms.write then (if perms.user then 0x40 else 0)
                   else (if perms.user then 0xC0 else 0x80));
    && LeafHolds(mem, t, va, word) && t.root < |mem|
    && if perms.read then |Walk(mem, t.root, va)| == 4 && Walk(mem, t.root, va)[3] == word
       else Walk(mem, t.root, va) == []
  }

  lemma LeafNumbers(mem0: Mem, t0: Tree, p0: Pool, mem: Mem, t: Tree, p: Pool, va: nat, pa: nat, perms: Permissions,
                    memType: MemType)
    requires Mapped(mem0, t0, p0, mem, t, p, va, pa, perms, memType) && pa % 0x1000 == 0
    requires LeafHolds(mem, t, va, PageDescriptor(pa, perms, memType))
    ensures LeafInNumbers(mem, t, va, pa, perms, memType)
  {
    hide TreeOk, TreeSafe, Unrestricted, WalkFrom, PageDescriptor, TablePermits, LeafHolds;
    PageInNumbers(pa, perms, memType);
  }

  lemma StageStart(mem: Mem, t: Tree, p: Pool, va: nat, perms: Permissions)
    requires TreeOk(mem, t) && TreeSafe(t, p)
    ensures Stage(mem, t, p, mem, t, p, t.root, 0, va, perms)
  {
    hide Field, LinkOk, Linked;
    assert t.Tables() - t.Tables() == {};
    assert p.used + {} == p.used;
  }

  lemma StageFacts(mem0: Mem, t0: Tree, p0: Pool, mem: Mem, t: Tree, p: Pool, f: nat, level: nat, va: nat,
                   perms: Permissions)
    requires Stage(mem0, t0, p0, mem, t, p, f, level, va, perms)
    ensures TreeOk(mem, t) && TreeSafe(t, p) && f in t.path && |t.path[f]| == level && f < |mem| && t0.root < |mem0|
  {
  }

  lemma StageStop(mem0: Mem, t0: Tree, p0: Pool, mem: Mem, t: Tree, p: Pool, f: nat, level: nat, va: nat,
                  perms: Permissions)
    requires Stage(mem0, t0, p0, mem, t, p, f, level, va, perms)
    ensures NotMapped(mem0, t0, p0, mem, t, p) && t0.root < |mem0|
  {
  }

  lemma StageBlocked(mem0: Mem, t0: Tree, p0: Pool, mem: Mem, t: Tree, p: Pool, f: nat, level: nat, va: nat,
                     perms: Permissions)
    requires Stage(mem0, t0, p0, mem, t, p, f, level, va, perms) && level < 3
    requires var e := mem[f][Index(va, level)]; if Valid(e) then !TablePermits(e, perms) else p.Free() == {}
    ensures !(PathPermits(mem0, t0.root, 0, va, perms) && |p0.Free()| >= Missing(mem0, t0.root, 0, va))
    ensures PathPermits(mem0, t0.root, 0, va, perms) ==> p.Free() == {}
  {
    hide Field, TablePermits, Built, SameWalks;
  }

  lemma CountStep(mem: Mem, t: Tree, p: Pool, f: nat, level: nat, va: nat, perms: Permissions, mem': Mem, t': Tree,
                  p': Pool, c: nat)
    requires level < 3 && f < |mem| && Advanced(mem, t, p, mem', t', p', f, Index(va, level), c, perms)
    ensures c < |mem'|
    ensures Missing(mem, f, level, va) + |p'.Free()| == Missing(mem', c, level + 1, va) + |p.Free()|
    ensures PathPermits(mem, f, level, va, perms) == PathPermits(mem', c, level + 1, va, perms)
  {
    hide Field, TablePermits, TreeOk, TreeSafe, Unrestricted, EntriesKept, SameWalks;
    assert c < |mem'| by { TableInRam(mem', t', c); }
    if !Valid(mem[f][Index(va, level)]) {
      ZeroInvalid();
      assert p'.Free() == p.Free() - {c};
      assert level + 1 < 3 ==> !Valid(mem'[c][Index(va, level + 1)]);
    }
  }

  lemma BuiltStep(mem0: Mem, t0: Tree, p0: Pool, mem: Mem, t: Tree, p: Pool, mem': Mem, t': Tree, p': Pool,
                  f: nat, i: nat, c: nat, perms: Permissions)
    requires Built(mem0, t0, p0, mem, t, p) && SameWalks(mem0, mem, t0.root) && t0.root == t.root
    requires Advanced(mem, t, p, mem', t', p', f, i, c, perms)
    ensures Built(mem0, t0, p0, mem', t', p') && SameWalks(mem0, mem', t0.root)
  {
    hide Field, TablePermits, TreeOk, Unrestricted, EntriesKept, Walk;
    if t' != t || p' != p || mem' != mem {
      assert t'.Tables() - t0.Tables() == (t.Tables() - t0.Tables()) + {c} by {
        assert forall g :: g in t0.path ==> g in t.Tables();
      }
      assert p0.used + (t.Tables() - t0.Tables()) + {c} == p0.used + (t'.Tables() - t0.Tables());
    }
  }

  lemma {:induction false} OnTheWayStays(mem: Mem, mem': Mem, t: Tree, root: nat, f: nat, level: nat, va: nat,
                                         perms: Permissions)
    requires TreeOk(mem, t) && EntriesKept(mem, mem', t) && root == t.root
    requires level <= 3 && OnTheWay(mem, root, f, level, va, perms)
    ensures OnTheWay(mem', root, f, level, va, perms) && f in t.path && |t.path[f]| == level
    decreases level
  {
    hide Field, TablePermits, Linked;
    if level > 0 {
      var g: nat :| && OnTheWay(mem, root, g, level - 1, va, perms)
               && Step(mem, g, level - 1, va, f) && TablePermits(mem[g][Index(va, level - 1)], perms);
      OnTheWayStays(mem, mem', t, root, g, level - 1, va, perms);
      assert LinkOk(mem, t, g, Index(va, level - 1));
      assert Step(mem', g, level - 1, va, f);
    }
  }

  lemma OnTheWayStep(mem: Mem, t: Tree, p: Pool, f: nat, level: nat, va: nat, perms: Permissions, mem': Mem, t': Tree,
                     p': Pool, c: nat)
    requires TreeOk(mem, t) && level < 3 && f < |mem| && OnTheWay(mem, t.root, f, level, va, perms)
    requires Advanced(mem, t, p, mem', t', p', f, Index(va, level), c, perms)
    ensures OnTheWay(mem', t.root, c, level + 1, va, perms)
  {
    hide Field, TablePermits;
    OnTheWayStays(mem, mem', t, t.root, f, level, va, perms);
    assert c < |mem'| by { TableInRam(mem', t', c); }
    assert Step(mem', f, level, va, c);
  }

  lemma StageStep(mem0: Mem, t0: Tree, p0: Pool, mem: Mem, t: Tree, p: Pool, f: nat, level: nat, va: nat,
                  perms: Permissions, mem': Mem, t': Tree, p': Pool, c: nat)
    requires Stage(mem0, t0, p0, mem, t, p, f, level, va, perms) && level < 3
    requires Advanced(mem, t, p, mem', t', p', f, Index(va, level), c, perms)
    ensures Stage(mem0, t0, p0, mem', t', p', c, level + 1, va, perms)
  {
    hide Built, SameWalks, Missing, PathPermits, OnTheWay, Field, TablePermits, TreeOk, TreeSafe, Unrestricted,
         EntriesKept;
    assert t0.root == t.root && TreeOk(mem, t) by { BuiltRoot(mem0, t0, p0, mem, t, p); }
    CountStep(mem, t, p, f, level, va, perms, mem', t', p', c);
    BuiltStep(mem0, t0, p0, mem, t, p, mem', t', p', f, Index(va, level), c, perms);
    OnTheWayStep(mem, t, p, f, level, va, perms, mem', t', p', c);
    BelowEntry(t.path[f], Index(va, level), va);
  }

  lemma NotABitmap(t: Tree, p: Pool, f: nat)
    requires TreeSafe(t, p) && f in t.path
    ensures f !in p.bitmaps
  {
    assert f in t.Tables();
  }

  lemma LeafBuilt(mem0: Mem, t0: Tree, p0: Pool, mem: Mem, t: Tree, p: Pool, f: nat, i: nat, w: Word, mem': Mem)
    requires Built(mem0, t0, p0, mem, t, p) && LeafWritten(mem, mem', t, f, i, w) && TableOrPage(w)
    ensures Built(mem0, t0, p0, mem', t, p)
  {
    hide Field, LinkOk, Linked, TreeShape;
    LeafKeepsTree(mem, mem', t, f, i, w);
    assert f in t.Tables();
  }

  lemma BelowBoth(path: seq<nat>, i: nat, va: nat, va': nat)
    requires |path| == 3 && Below(path, va) && Index(va, 3) == i
    ensures Below(path + [i], va') ==> SamePage(va, va')
  {
    BelowEntry(path, i, va');
    if Below(path + [i], va') {
      forall k: nat | k <= 3
        ensures Index(va, k) == Index(va', k)
      {
        assert k < 3 ==> path[k] == Index(va, k) && path[k] == Index(va', k);
      }
    }
  }

  lemma LeafOthers(mem0: Mem, mem: Mem, t: Tree, f: nat, va: nat, w: Word, mem': Mem)
    requires TreeOk(mem, t) && f in t.path && |t.path[f]| == 3 && Below(t.path[f], va)
    requires SameWalks(mem0, mem, t.root) && LeafWritten(mem, mem', t, f, Index(va, 3), w)
    ensures forall va': nat :: !SamePage(va, va') ==> Walk(mem', t.root, va') == Walk(mem0, t.root, va')
  {
    hide LinkOk, Linked, Field, WalkFrom, Index;
    forall va': nat | !SamePage(va, va')
      ensures Walk(mem', t.root, va') == Walk(mem0, t.root, va')
    {
      var i := Index(va, 3);
      BelowBoth(t.path[f], i, va, va');
      LeafKeepsOthers(mem, mem', t, f, i, w, t.root, va');
    }
  }

  lemma LeafLeads(mem: Mem, t: Tree, f: nat, va: nat, pa: nat, perms: Permissions, memType: MemType, mem': Mem)
    requires TreeOk(mem, t) && OnTheWay(mem, t.root, f, 3, va, perms) && pa % PAGE_SIZE == 0
    requires LeafWritten(mem, mem', t, f, Index(va, 3), PageDescriptor(pa, perms, memType))
    ensures Leads(Walk(mem', t.root, va), pa, perms, memType)
  {
    hide Field, TablePermits, PageDescriptor, WalkFrom, TreeOk, Index, OnTheWay;
    var f2 := WayBack(mem, t, f, 3, va, perms);
    var f1 := WayBack(mem, t, f2, 2, va, perms);
    var f0 := WayBack(mem, t, f1, 1, va, perms);
    assert f0 == t.root by { RootOfWay(mem, t, f0, va, perms); }
    WalkAlong(mem', f0, f1, f2, f, va);
    PageDescriptorFields(pa, perms, memType);
  }

  lemma WayBack(mem: Mem, t: Tree, f: nat, level: nat, va: nat, perms: Permissions) returns (g: nat)
    requires TreeOk(mem, t) && 0 < level <= 3 && OnTheWay(mem, t.root, f, level, va, perms)
    ensures OnTheWay(mem, t.root, g, level - 1, va, perms)
    ensures Step(mem, g, level - 1, va, f) && TablePermits(mem[g][Index(va, level - 1)], perms)
    ensures g in t.path && |t.path[g]| == level - 1
  {
    hide TreeOk, TablePermits, Index, Field;
    g :| && OnTheWay(mem, t.root, g, level - 1, va, perms)
         && Step(mem, g, level - 1, va, f) && TablePermits(mem[g][Index(va, level - 1)], perms);
    Levels(mem, t, g, level - 1, va, perms);
  }

  lemma RootOfWay(mem: Mem, t: Tree, f: nat, va: nat, perms: Permissions)
    requires OnTheWay(mem, t.root, f, 0, va, perms)
    ensures f == t.root
  {
  }

  lemma Levels(mem: Mem, t: Tree, f: nat, level: nat, va: nat, perms: Permissions)
    requires TreeOk(mem, t) && level <= 3 && OnTheWay(mem, t.root, f, level, va, perms)
    ensures f in t.path && |t.path[f]| == level
  {
    hide TreeOk, OnTheWay;
    KeptSame(mem, t);
    OnTheWayStays(mem, mem, t, t.root, f, level, va, perms);
  }

  lemma KeptSame(mem: Mem, t: Tree)
    requires TreeOk(mem, t)
    ensures EntriesKept(mem, mem, t)
  {
  }

  lemma LeafMapped(mem0: Mem, t0: Tree, p0: Pool, mem: Mem, t: Tree, p: Pool, f: nat, va: nat, pa: nat,
                   perms: Permissions, memType: MemType, mem': Mem)
    requires Stage(mem0, t0, p0, mem, t, p, f, 3, va, perms) && pa % PAGE_SIZE == 0
    requires mem' == mem[f := mem[f][Index(va, 3) := PageDescriptor(pa, perms, memType)]]
    ensures Mapped(mem0, t0, p0, mem', t, p, va, pa, perms, memType)
    ensures PathPermits(mem0, t0.root, 0, va, perms) && |p0.Free()| >= Missing(mem0, t0.root, 0, va)
  {
    hide Built, Leads, SameWalks, OnTheWay, PageDescriptor, TreeOk, TreeSafe, SamePage, Field, Walk;
    var w := PageDescriptor(pa, perms, memType);
    BuiltRoot(mem0, t0, p0, mem, t, p);
    assert LeafWritten(mem, mem', t, f, Index(va, 3), w);
    PageDescriptorFields(pa, perms, memType);
    LeafBuilt(mem0, t0, p0, mem, t, p, f, Index(va, 3), w, mem');
    LeafOthers(mem0, mem, t, f, va, w, mem');
    LeafLeads(mem, t, f, va, pa, perms, memType, mem');
    SameRam(mem0, mem, t0.root);
  }

  lemma SameRam(mem: Mem, mem': Mem, root: nat)
    requires SameWalks(mem, mem', root)
    ensures |mem| == |mem'|
  {
  }

  lemma BuiltRoot(mem0: Mem, t0: Tree, p0: Pool, mem: Mem, t: Tree, p: Pool)
    requires Built(mem0, t0, p0, mem, t, p)
    ensures t0.root == t.root && TreeOk(mem, t) && TreeSafe(t, p)
  {
  }

  lemma AllFacts(mem: Mem, base: nat, chunks: seq<Chunk>, regions: seq<Region>, p: Pool)
    requires Inv(mem, base, chunks, regions, p)
    ensures p.bitmaps <= p.used <= p.managed
    ensures NoFit(regions, 1) ==> p.Free() == {}
  {
    if NoFit(regions, 1) {
      forall f | f in p.managed
        ensures f in p.used
      {
        var k: nat :| k < |regions| && regions[k].Holds(f);
        assert TracksRegion(regions[k], p);
        assert !FirstFit.FreeRun(regions[k].flags, f - regions[k].first, 1);
      }
    }
  }

  lemma PlaceForTable(mem0: Mem, p0: Pool, mem1: Mem, p1: Pool, t: Tree, f: nat, i: nat, pa: nat, c: nat)
    requires TreeOk(mem0, t) && TreeSafe(t, p0) && f in t.path && i < 512
    requires FramesTaken(p0, mem0, p1, mem1, 1, pa) && c == pa / PAGE_SIZE && p0.bitmaps <= p0.used
    ensures 0 < c < |mem1| && pa == c * PAGE_SIZE && c in p0.Free() && c !in p0.bitmaps && c !in t.path && c != f
    ensures p1 == p0.(used := p0.used + {c}) && f < |mem1| && f !in p1.bitmaps && c !in p1.bitmaps
    ensures SameOutside(mem0, mem1, p0.bitmaps)
  {
    hide LinkOk, Linked, Field;
    assert Run(c, 1) == {c};
    assert f in t.Tables() && c in p0.Free();
  }

  lemma EntryAddress(base: nat, f: nat, i: nat, frames: nat)
    requires base == 0 || base == KERNEL_BASE
    requires f < frames <= MAX_FRAMES && i < 512
    ensures VaToPa(base, PageVa(base, f) + 8 * i) == f * PAGE_SIZE + 8 * i
  {
  }

  lemma TableBuilt(mem0: Mem, p0: Pool, mem1: Mem, mem3: Mem, p1: Pool, t: Tree, f: nat, i: nat, c: nat,
                   perms: Permissions)
    requires TreeOk(mem0, t) && TreeSafe(t, p0) && f in t.path && i < 512 && |t.path[f]| < 3 && !Valid(mem0[f][i])
    requires 0 < c < |mem1| && c in p0.Free() && c !in p0.bitmaps && c !in t.path && c != f && |mem1| <= MAX_FRAMES
    requires p1 == p0.(used := p0.used + {c}) && SameOutside(mem0, mem1, p0.bitmaps)
    requires var mem2 := mem1[c := ZeroFrame()]; mem3 == mem2[f := mem2[f][i := TableDescriptor(c * PAGE_SIZE)]]
    ensures Advanced(mem0, t, p0, mem3, Grown(t, f, i, c), p1, f, i, c, perms)
  {
    hide TableDescriptor, TreeOk, Advanced, Field, Linked, LinkOk;
    SameTables(mem0, mem1, t, p0.bitmaps);
    TreeElsewhere(mem0, mem1, t, p0.bitmaps);
    TableDescriptorFields(c * PAGE_SIZE);
    assert TableInstalled(mem1, mem3, t, f, i, c);
    InstallAdvances(mem1, mem3, t, p0, f, i, c, perms);
    AdvancedAfter(mem0, mem1, t, p0, mem3, Grown(t, f, i, c), p1, f, i, c, perms);
  }
}
