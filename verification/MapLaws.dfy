/** What any number of map_page calls amounts to: an update of a finite map from pages to
  leaves, at the price of exactly the tables not there yet. */
module MapLaws {
  import opened Memory
  import opened PhysicalPages
  import opened Descriptors
  import opened TranslationTree
  import opened PageTables
  import opened TableGrowth

  /** What a granted readable request means to the hardware: the walk ends at the requested address with the
    requested attributes, and data access, after all three tables on the way, is what was asked for. */
  lemma MappedMeans(mem: Mem, t: Tree, p: Pool, mem': Mem, t': Tree, p': Pool, va: nat, pa: nat, perms: Permissions,
                    memType: MemType)
    requires Mapped(mem, t, p, mem', t', p', va, pa, perms, memType) && perms.read && pa % PAGE_SIZE == 0
             && pa < 0x4_0000_0000_0000
    ensures var w := Walk(mem', t.root, va);
            && |w| == 4 && OutputAddress(w[3]) == pa
            && (perms.user ==> Effective(w).userRead && Effective(w).userWrite == perms.write)
            && (!perms.user ==> Effective(w).privRead && Effective(w).privWrite == perms.write)
            && (!perms.user ==> !Effective(w).userRead && !Effective(w).userWrite)
            && (Xn(w[3]) == 1 <==> !perms.execute) && (Pxn(w[3]) == 1 <==> !perms.execute) && AccessFlag(w[3]) == 1
            && AttrIndex(w[3]) == (if memType.DEVICE? then 0 else 1)
            && Shareability(w[3]) == (if memType.DEVICE? then 0 else 3)
  {
    hide Built, Walk, PageDescriptor, TablePermits, Effective, OutputAddress, SamePage, Missing, Xn, Pxn, AccessFlag,
         AttrIndex, Shareability;
    var w := Walk(mem', t.root, va);
    PageDescriptorFields(pa, perms, memType);
    EffectiveAsRequested(w, pa, perms, memType);
  }

  /** On tables that map_page built such a mapping executes exactly as requested at its own level: at EL0 for whoever
    asked, and at EL1 likewise unless EL0 may write the page. */
  lemma MappedExecutes(mem: Mem, t: Tree, p: Pool, mem': Mem, t': Tree, p': Pool, va: nat, pa: nat, perms: Permissions,
                       memType: MemType)
    requires Mapped(mem, t, p, mem', t', p', va, pa, perms, memType) && perms.read && pa % PAGE_SIZE == 0
             && Unrestricted(mem, t)
    ensures var w := Walk(mem', t.root, va);
            && |w| == 4 && (UserExecutes(w) <==> perms.execute)
            && (PrivExecutes(w) <==> perms.execute && !(perms.user && perms.write))
            && Executes(w, perms.user) == perms.execute
  {
    MappedBuilt(mem, t, p, mem', t', p', va, pa, perms, memType);
    StaysUnrestricted(mem, t, p, mem', t', p');
    hide Built, WalkFrom, PageDescriptor, TablePermits, SamePage, Missing, UserExecutes, PrivExecutes, Unrestricted,
         TreeOk;
    WalkUnrestrictive(mem', t', va);
    ExecutionAtBothLevels(Walk(mem', t.root, va), pa, perms, memType);
  }

  // ---- any sequence of requests

  datatype Request = Request(va: nat, pa: nat, perms: Permissions, memType: MemType) {
    predicate Aligned() { va % PAGE_SIZE == 0 && pa % PAGE_SIZE == 0 }
  }

  /** The last request granted for the page of `va`, or -1. */
  ghost function Latest(reqs: seq<Request>, granted: seq<bool>, va: nat): (i: int)
    requires |reqs| == |granted|
    ensures -1 <= i < |reqs|
  {
    if reqs == [] then -1
    else
      var n := |reqs| - 1;
      if granted[n] && SamePage(reqs[n].va, va) then n else Latest(reqs[..n], granted[..n], va)
  }

  /** Every address translates as the last request granted for its page says, or as before. */
  ghost predicate Remembers(mem0: Mem, mem: Mem, root: nat, reqs: seq<Request>, granted: seq<bool>) {
    && root < |mem0| == |mem| && |reqs| == |granted|
    && forall va: nat ::
         var i := Latest(reqs, granted, va);
         if i == -1 then Walk(mem, root, va) == Walk(mem0, root, va)
         else Leads(Walk(mem, root, va), reqs[i].pa, reqs[i].perms, reqs[i].memType)
  }

  lemma LatestNext(reqs: seq<Request>, granted: seq<bool>, r: Request, ok: bool, va: nat)
    requires |reqs| == |granted|
    ensures Latest(reqs + [r], granted + [ok], va) ==
            if ok && SamePage(r.va, va) then |reqs| else Latest(reqs, granted, va)
  {
    hide SamePage;
    assert (reqs + [r])[..|reqs|] == reqs && (granted + [ok])[..|reqs|] == granted;
  }

  lemma RemembersGranted(mem0: Mem, mem: Mem, t: Tree, p: Pool, mem': Mem, t': Tree, p': Pool,
                         reqs: seq<Request>, granted: seq<bool>, r: Request)
    requires Remembers(mem0, mem, t.root, reqs, granted)
    requires Mapped(mem, t, p, mem', t', p', r.va, r.pa, r.perms, r.memType)
    ensures Remembers(mem0, mem', t.root, reqs + [r], granted + [true])
  {
    hide Built, Leads, SamePage, WalkFrom, Latest;
    forall va: nat
      ensures var i := Latest(reqs + [r], granted + [true], va);
              if i == -1 then Walk(mem', t.root, va) == Walk(mem0, t.root, va)
              else Leads(Walk(mem', t.root, va), (reqs + [r])[i].pa, (reqs + [r])[i].perms, (reqs + [r])[i].memType)
    {
      LatestNext(reqs, granted, r, true, va);
      if SamePage(r.va, va) {
        SamePageWalk(mem', t.root, 0, r.va, va);
      }
    }
  }

  lemma RemembersRefused(mem0: Mem, mem: Mem, root: nat, mem': Mem, reqs: seq<Request>, granted: seq<bool>, r: Request)
    requires Remembers(mem0, mem, root, reqs, granted) && SameWalks(mem, mem', root)
    ensures Remembers(mem0, mem', root, reqs + [r], granted + [false])
  {
    hide Leads, SamePage, WalkFrom, Latest;
    forall va: nat
      ensures var i := Latest(reqs + [r], granted + [false], va);
              if i == -1 then Walk(mem', root, va) == Walk(mem0, root, va)
              else Leads(Walk(mem', root, va), (reqs + [r])[i].pa, (reqs + [r])[i].perms, (reqs + [r])[i].memType)
    {
      LatestNext(reqs, granted, r, false, va);
      assert Walk(mem', root, va) == Walk(mem, root, va);
    }
  }

  lemma NothingRemembered(mem: Mem, t: Tree)
    requires TreeOk(mem, t)
    ensures Remembers(mem, mem, t.root, [], [])
  {
  }

  /** A request, aligned or not, was refused only if it is misaligned or no page is left. */
  ghost predicate OnlyForMemory(reqs: seq<Request>, granted: seq<bool>, free: set<nat>) {
    && |reqs| == |granted|
    && forall i: nat :: i < |reqs| ==> if reqs[i].Aligned() then granted[i] || free == {} else !granted[i]
  }

  lemma StillOnlyForMemory(mem: Mem, t: Tree, p: Pool, mem': Mem, t': Tree, p': Pool, reqs: seq<Request>,
                           granted: seq<bool>, r: Request, ok: bool)
    requires Built(mem, t, p, mem', t', p') && OnlyForMemory(reqs, granted, p.Free())
    requires if r.Aligned() then ok || p'.Free() == {} else !ok
    ensures OnlyForMemory(reqs + [r], granted + [ok], p'.Free())
  {
    hide TreeOk, TreeSafe, Extends, Unrestricted;
    assert p'.Free() <= p.Free();
  }

  /** Any run of map_page calls on a tree that map_page built. */
  method MapEach(k: Mapper, root: nat, reqs: seq<Request>, ghost t: Tree) returns (granted: seq<bool>, ghost t': Tree)
    requires k.Valid() && TreeOk(k.m.mem, t) && TreeSafe(t, k.pages.pool) && Unrestricted(k.m.mem, t)
    requires root == PageVa(k.m.kernelBase, t.root)
    modifies k.pages`regions, k.pages`pool, k.m`mem
    ensures k.Valid() && Built(old(k.m.mem), t, old(k.pages.pool), k.m.mem, t', k.pages.pool)
    ensures Remembers(old(k.m.mem), k.m.mem, t.root, reqs, granted)
    ensures OnlyForMemory(reqs, granted, k.pages.pool.Free())
  {
    hide LeafInNumbers, TreeOk, TreeSafe, Built, Mapped, NotMapped, Inv, PathPermits, Missing, Remembers, OnlyForMemory,
         Unrestricted;
    ghost var mem0, p0 := k.m.mem, k.pages.pool;
    granted, t' := [], t;
    BuiltSame(mem0, t, p0);
    RootPositive(mem0, t, k.m.kernelBase);
    NothingRemembered(mem0, t);
    NothingRefused(p0.Free());
    var i := 0;
    while i < |reqs|
      invariant i <= |reqs| == |reqs| && |granted| == i
      invariant k.Valid() && t'.root == t.root && TreeOk(k.m.mem, t') && TreeSafe(t', k.pages.pool)
                && Unrestricted(k.m.mem, t')
      invariant Built(mem0, t, p0, k.m.mem, t', k.pages.pool)
      invariant Remembers(mem0, k.m.mem, t.root, reqs[..i], granted)
      invariant OnlyForMemory(reqs[..i], granted, k.pages.pool.Free())
    {
      var r := reqs[i];
      ghost var mem1, t1, p1 := k.m.mem, t', k.pages.pool;
      var ok;
      ok, t' := k.MapPage(root, r.va, r.pa, r.perms, r.memType, t1);
      RootOf(mem1, t1);
      UnrestrictedPermits(mem1, t1, t1.root, r.va, r.perms);
      if ok {
        MappedBuilt(mem1, t1, p1, k.m.mem, t', k.pages.pool, r.va, r.pa, r.perms, r.memType);
        RemembersGranted(mem0, mem1, t1, p1, k.m.mem, t', k.pages.pool, reqs[..i], granted, r);
      } else {
        NotMappedBuilt(mem1, t1, p1, k.m.mem, t', k.pages.pool);
        RemembersRefused(mem0, mem1, t.root, k.m.mem, reqs[..i], granted, r);
      }
      StillOnlyForMemory(mem1, t1, p1, k.m.mem, t', k.pages.pool, reqs[..i], granted, r, ok);
      StaysUnrestricted(mem1, t1, p1, k.m.mem, t', k.pages.pool);
      BuiltTrans(mem0, t, p0, mem1, t1, p1, k.m.mem, t', k.pages.pool);
      assert reqs[..i + 1] == reqs[..i] + [r];
      granted := granted + [ok];
      i := i + 1;
    }
    assert reqs[..i] == reqs;
  }

  lemma NothingRefused(free: set<nat>)
    ensures OnlyForMemory([], [], free)
  {
  }
}
