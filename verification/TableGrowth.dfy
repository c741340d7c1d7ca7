/** How trees grow: what mappings add up to, and which tables they cost. */
module TableGrowth {
  import opened Memory
  import opened PhysicalPages
  import opened Descriptors
  import opened TranslationTree
  import opened PageTables

  // ---- growth over several mappings

  lemma BuiltSame(mem: Mem, t: Tree, p: Pool)
    requires TreeOk(mem, t) && TreeSafe(t, p)
    ensures Built(mem, t, p, mem, t, p)
  {
    hide LinkOk, Linked;
    assert t.Tables() - t.Tables() == {};
    assert p.used + {} == p.used;
  }

  lemma BuiltTrans(mem0: Mem, t0: Tree, p0: Pool, mem1: Mem, t1: Tree, p1: Pool, mem2: Mem, t2: Tree, p2: Pool)
    requires Built(mem0, t0, p0, mem1, t1, p1) && Built(mem1, t1, p1, mem2, t2, p2)
    ensures Built(mem0, t0, p0, mem2, t2, p2)
  {
    hide TreeOk, Unrestricted, TreeSafe;
    assert t2.Tables() - t0.Tables() == (t2.Tables() - t1.Tables()) + (t1.Tables() - t0.Tables()) by {
      assert forall f :: f in t0.path ==> f in t1.Tables() && f in t2.Tables();
      assert forall f :: f in t1.path ==> f in t2.Tables();
    }
    assert p0.used + (t1.Tables() - t0.Tables()) + (t2.Tables() - t1.Tables()) == p0.used + (t2.Tables() - t0.Tables());
    assert t1.Tables() <= t2.Tables() by {
      assert forall f :: f in t1.path ==> f in t2.Tables();
    }
  }

  lemma MappedBuilt(mem: Mem, t: Tree, p: Pool, mem': Mem, t': Tree, p': Pool, va: nat, pa: nat, perms: Permissions,
                    memType: MemType)
    requires Mapped(mem, t, p, mem', t', p', va, pa, perms, memType)
    ensures Built(mem, t, p, mem', t', p') && TreeOk(mem', t') && TreeSafe(t', p') && t'.root == t.root
  {
  }

  lemma NotMappedBuilt(mem: Mem, t: Tree, p: Pool, mem': Mem, t': Tree, p': Pool)
    requires NotMapped(mem, t, p, mem', t', p')
    ensures Built(mem, t, p, mem', t', p') && TreeOk(mem', t') && TreeSafe(t', p') && t'.root == t.root
            && SameWalks(mem, mem', t.root)
  {
  }

  lemma RootPositive(mem: Mem, t: Tree, base: nat)
    requires TreeOk(mem, t)
    ensures PageVa(base, t.root) > 0 && t.root < |mem|
  {
  }

  lemma RootOf(mem: Mem, t: Tree)
    requires TreeOk(mem, t)
    ensures t.root in t.path && t.path[t.root] == []
  {
  }

  /** Tables built by map_page restrict nothing, so no request is refused for its permissions. */
  lemma {:induction false} UnrestrictedPermits(mem: Mem, t: Tree, f: nat, va: nat, perms: Permissions)
    requires TreeOk(mem, t) && Unrestricted(mem, t) && f in t.path
    ensures f < |mem| && PathPermits(mem, f, |t.path[f]|, va, perms)
    decreases 3 - |t.path[f]|
  {
    hide Bits.Field, Linked;
    var l := |t.path[f]|;
    if l < 3 && Valid(mem[f][Index(va, l)]) {
      assert LinkOk(mem, t, f, Index(va, l));
      UnrestrictedPermits(mem, t, TableFrame(mem[f][Index(va, l)]), va, perms);
    }
  }

  lemma StaysUnrestricted(mem: Mem, t: Tree, p: Pool, mem': Mem, t': Tree, p': Pool)
    requires Built(mem, t, p, mem', t', p') && Unrestricted(mem, t)
    ensures Unrestricted(mem', t')
  {
  }

  // ---- how many tables a mapping needs

  /** The indices leading to the level `n` table of `va`. */
  function Prefix(va: nat, n: nat): (p: seq<nat>)
    requires n <= 3
    ensures |p| == n
  {
    seq(n, k requires 0 <= k < n => Index(va, k))
  }

  function Prefixes(va: nat): set<seq<nat>> {
    {Prefix(va, 1)} + ({Prefix(va, 2)} + {Prefix(va, 3)})
  }

  function Paths(t: Tree): set<seq<nat>> {
    t.path.Values
  }

  lemma PathKnown(t: Tree, f: nat)
    requires f in t.path
    ensures t.path[f] in Paths(t)
  {
  }

  lemma PrefixNext(va: nat, n: nat)
    requires n < 3
    ensures Prefix(va, n + 1) == Prefix(va, n) + [Index(va, n)]
  {
  }

  /** The table holding a table's entry is there too. */
  lemma ParentKnown(mem: Mem, t: Tree, va: nat, n: nat)
    requires TreeOk(mem, t) && n < 3 && Prefix(va, n + 1) in Paths(t)
    ensures Prefix(va, n) in Paths(t)
    ensures exists f :: f in t.path && t.path[f] == Prefix(va, n) && Valid(mem[f][Index(va, n)])
  {
    hide Bits.Field;
    var c :| c in t.path && t.path[c] == Prefix(va, n + 1);
    assert Linked(mem, t, c);
    var f, i: nat :| f in t.path && i < 512 && |t.path[f]| < 3 && Valid(mem[f][i]) && TableFrame(mem[f][i]) == c;
    assert LinkOk(mem, t, f, i);
    PrefixNext(va, n);
    assert t.path[f] == (t.path[f] + [i])[..|t.path[f]|];
    assert Prefix(va, n) == (Prefix(va, n) + [Index(va, n)])[..n];
    assert i == Prefix(va, n + 1)[n];
    PathKnown(t, f);
  }

  /** An entry is valid exactly when its table is part of the tree. */
  lemma EntryIffKnown(mem: Mem, t: Tree, f: nat, va: nat)
    requires TreeOk(mem, t) && f in t.path && |t.path[f]| < 3 && t.path[f] == Prefix(va, |t.path[f]|)
    ensures f < |mem|
    ensures var e := mem[f][Index(va, |t.path[f]|)];
            if Prefix(va, |t.path[f]| + 1) in Paths(t)
            then Valid(e) && TableFrame(e) in t.path && t.path[TableFrame(e)] == Prefix(va, |t.path[f]| + 1)
            else !Valid(e)
  {
    hide Bits.Field, Linked;
    var n := |t.path[f]|;
    PrefixNext(va, n);
    assert LinkOk(mem, t, f, Index(va, n));
    if Valid(mem[f][Index(va, n)]) {
      PathKnown(t, TableFrame(mem[f][Index(va, n)]));
    }
    if Prefix(va, n + 1) in Paths(t) {
      ParentKnown(mem, t, va, n);
    }
  }

  /** Tables on the way of `va` below level `n` that the tree lacks. */
  function Lacking(t: Tree, va: nat, n: nat): nat
    requires n <= 3
    decreases 3 - n
  {
    if n == 3 then 0 else (if Prefix(va, n + 1) in Paths(t) then 0 else 1) + Lacking(t, va, n + 1)
  }

  lemma {:induction false} NothingDeeper(mem: Mem, t: Tree, va: nat, n: nat)
    requires TreeOk(mem, t) && 0 < n <= 3 && Prefix(va, n) !in Paths(t)
    ensures Lacking(t, va, n) == 3 - n
    decreases 3 - n
  {
    hide TreeOk;
    if n < 3 {
      if Prefix(va, n + 1) in Paths(t) {
        ParentKnown(mem, t, va, n);
      }
      NothingDeeper(mem, t, va, n + 1);
    }
  }

  lemma {:induction false} MissingLacking(mem: Mem, t: Tree, f: nat, va: nat)
    requires TreeOk(mem, t) && f in t.path && f < |mem| && |t.path[f]| <= 3 && t.path[f] == Prefix(va, |t.path[f]|)
    ensures Missing(mem, f, |t.path[f]|, va) == Lacking(t, va, |t.path[f]|)
    decreases 3 - |t.path[f]|
  {
    hide Bits.Field, TreeOk;
    var n := |t.path[f]|;
    if n < 3 {
      EntryIffKnown(mem, t, f, va);
      if Prefix(va, n + 1) in Paths(t) {
        var c := TableFrame(mem[f][Index(va, n)]);
        TableInRam(mem, t, c);
        MissingLacking(mem, t, c, va);
      } else {
        NothingDeeper(mem, t, va, n + 1);
      }
    }
  }

  /** What map_page still needs is the set of paths the tree does not have yet. */
  lemma MissingCounted(mem: Mem, t: Tree, va: nat)
    requires TreeOk(mem, t)
    ensures t.root < |mem| && Missing(mem, t.root, 0, va) == |Prefixes(va) - Paths(t)|
  {
    assert t.path[t.root] == Prefix(va, 0);
    MissingLacking(mem, t, t.root, va);
    hide TreeOk, Missing, Paths;
    var a, b, c := Prefix(va, 1), Prefix(va, 2), Prefix(va, 3);
    assert |a| == 1 && |b| == 2 && |c| == 3;
    LackingOf(t, va, 2);
    LackingOf(t, va, 1);
    LackingOf(t, va, 0);
    CountThree(a, b, c, Paths(t));
  }

  lemma LackingOf(t: Tree, va: nat, n: nat)
    requires n < 3
    ensures Lacking(t, va, n) ==
            (if Prefix(va, n + 1) in Paths(t) then 0 else 1) + if n == 2 then 0 else Lacking(t, va, n + 1)
  {
  }

  lemma CountThree<T>(a: T, b: T, c: T, known: set<T>)
    requires a != b && b != c && a != c
    ensures |({a} + ({b} + {c})) - known| ==
            (if a in known then 0 else 1) + (if b in known then 0 else 1) + if c in known then 0 else 1
  {
    CountOne(a, {b} + {c}, known);
    CountOne(b, {c}, known);
    assert {c} - known == if c in known then {} else {c};
  }

  lemma CountOne<T>(a: T, rest: set<T>, known: set<T>)
    requires a !in rest
    ensures |({a} + rest) - known| == (if a in known then 0 else 1) + |rest - known|
  {
    if a in known {
      assert ({a} + rest) - known == rest - known;
    } else {
      assert ({a} + rest) - known == {a} + (rest - known);
    }
  }

  lemma ValuesSplit(path: map<nat, seq<nat>>, f: nat)
    requires f in path && forall g :: g in path && path[f] == path[g] ==> f == g
    ensures path.Values == (path - {f}).Values + {path[f]} && path[f] !in (path - {f}).Values
  {
    var rest := path - {f};
    forall q | q in path.Values
      ensures q in rest.Values + {path[f]}
    {
      var g :| g in path && path[g] == q;
      assert g != f ==> g in rest && rest[g] == q;
    }
  }

  /** Every table has its own path. */
  lemma {:induction false} AsManyPaths(path: map<nat, seq<nat>>)
    requires forall f, g :: f in path && g in path && path[f] == path[g] ==> f == g
    ensures |path.Values| == |path.Keys|
  {
    if path.Keys == {} {
      assert path.Values == {};
    } else {
      var f :| f in path.Keys;
      var rest := path - {f};
      AsManyPaths(rest);
      ValuesSplit(path, f);
      assert path.Keys == rest.Keys + {f};
    }
  }

  lemma NewTablesCounted(mem: Mem, t: Tree, p: Pool, mem': Mem, t': Tree, p': Pool)
    requires Built(mem, t, p, mem', t', p') && p.used <= p.managed && TreeOk(mem, t)
    ensures |Paths(t')| + |p'.Free()| == |Paths(t)| + |p.Free()|
    ensures Paths(t) <= Paths(t')
  {
    hide Linked, LinkOk, TreeSafe, Unrestricted;
    assert t.Tables() <= t'.Tables() by {
      assert forall f :: f in t.path ==> f in t'.Tables();
    }
    AsManyPaths(t.path);
    AsManyPaths(t'.path);
    TakenFromFree(p, t.Tables(), t'.Tables());
    forall q | q in Paths(t)
      ensures q in Paths(t')
    {
      var f :| f in t.path && t.path[f] == q;
      PathKnown(t', f);
    }
  }

  lemma TakenFromFree(p: Pool, before: set<nat>, after: set<nat>)
    requires before <= after && after - before <= p.Free()
    ensures |after| + |p.(used := p.used + (after - before)).Free()| == |before| + |p.Free()|
  {
    var added := after - before;
    assert p.(used := p.used + added).Free() == p.Free() - added;
    assert after == before + added;
  }

  lemma ReachedPaths(mem: Mem, t: Tree, va: nat)
    requires TreeOk(mem, t) && Reached(t, va)
    ensures Prefixes(va) <= Paths(t)
  {
    hide TreeOk, Index;
    var f :| f in t.path && |t.path[f]| == 3 && Below(t.path[f], va);
    assert t.path[f] == Prefix(va, 3);
    PathKnown(t, f);
    ParentKnown(mem, t, va, 2);
    ParentKnown(mem, t, va, 1);
  }

  /** A mapping adds exactly the tables on its way, each once. */
  lemma MappedPaths(mem: Mem, t: Tree, p: Pool, mem': Mem, t': Tree, p': Pool, va: nat, pa: nat, perms: Permissions,
                    memType: MemType)
    requires Mapped(mem, t, p, mem', t', p', va, pa, perms, memType)
    requires TreeOk(mem, t) && p.used <= p.managed
    ensures Paths(t') == Paths(t) + Prefixes(va)
    ensures |Paths(t')| + |p'.Free()| == |Paths(t)| + |p.Free()|
  {
    hide TreeOk, Built, Missing, Leads, Paths, WalkFrom, SamePage, Prefixes, Reached;
    MappedBuilt(mem, t, p, mem', t', p', va, pa, perms, memType);
    NewTablesCounted(mem, t, p, mem', t', p');
    MissingCounted(mem, t, va);
    ReachedPaths(mem', t', va);
    CoveredExactly(Paths(t), Prefixes(va), Paths(t'));
  }

  lemma CoveredExactly<T>(before: set<T>, needed: set<T>, after: set<T>)
    requires before <= after && needed <= after && |after| == |before| + |needed - before|
    ensures after == before + needed
  {
    var all := before + needed;
    assert all == before + (needed - before);
    assert after == all + (after - all);
    assert |after| == |all| + |after - all|;
  }

  /** Paths of all tables on the way of the `n` pages from `start` on. */
  function PagePaths(start: nat, n: nat): set<seq<nat>> {
    if n == 0 then {} else PagePaths(start, n - 1) + Prefixes(start + (n - 1) * PAGE_SIZE)
  }

  lemma {:induction false} PagePathsGrow(start: nat, n: nat, n': nat)
    requires n <= n'
    ensures PagePaths(start, n) <= PagePaths(start, n')
    ensures forall i: nat :: i < n ==> Prefixes(start + i * PAGE_SIZE) <= PagePaths(start, n)
    decreases n', n
  {
    hide Prefixes;
    if n < n' {
      PagePathsGrow(start, n, n' - 1);
    } else if n > 0 {
      PagePathsGrow(start, n - 1, n - 1);
    }
  }

  lemma {:induction false} NoEmptyPath(start: nat, n: nat)
    ensures [] !in PagePaths(start, n)
  {
    hide Index;
    if n > 0 {
      NoEmptyPath(start, n - 1);
    }
  }

  lemma SmallerSet<T>(a: set<T>, b: set<T>)
    requires a <= b
    ensures |a| <= |b|
  {
    assert b == a + (b - a);
  }

  // ---- the cost of a series of mappings

  /** Tables on the paths `done` were added where they were missing, each out of a free page. */
  ghost predicate Grew(t0: Tree, p0: Pool, t: Tree, p: Pool, done: set<seq<nat>>) {
    Paths(t) == Paths(t0) + done && |Paths(t)| + |p.Free()| == |Paths(t0)| + |p0.Free()|
  }

  lemma GrewEnough(t0: Tree, p0: Pool, t: Tree, p: Pool, done: set<seq<nat>>)
    requires Grew(t0, p0, t, p, done)
    ensures |p0.Free()| >= |done - Paths(t0)|
  {
    SplitSize(Paths(t0), done);
  }

  lemma SplitSize<T>(a: set<T>, b: set<T>)
    ensures |a + b| == |a| + |b - a|
  {
    assert a + b == a + (b - a);
  }

  /** Too few free pages for what is still to come: too few from the start for all of it. */
  lemma GrewStuck(t0: Tree, p0: Pool, t: Tree, p: Pool, done: set<seq<nat>>, more: set<seq<nat>>, all: set<seq<nat>>)
    requires Grew(t0, p0, t, p, done) && |p.Free()| < |more - Paths(t)| && done + more <= all
    ensures |p0.Free()| < |all - Paths(t0)|
  {
    hide Paths;
    SplitSize(Paths(t), more);
    SplitSize(Paths(t0), all);
    SmallerSet(Paths(t) + more, Paths(t0) + all);
  }

  lemma GrewTrans(t0: Tree, p0: Pool, t1: Tree, p1: Pool, done1: set<seq<nat>>, t2: Tree, p2: Pool,
                  done2: set<seq<nat>>)
    requires Grew(t0, p0, t1, p1, done1) && Grew(t1, p1, t2, p2, done2)
    ensures Grew(t0, p0, t2, p2, done1 + done2)
  {
    hide Paths;
  }

  /** A series of mappings under way, on tables that restrict nothing. */
  ghost predicate Progress(mem0: Mem, t0: Tree, p0: Pool, mem: Mem, t: Tree, p: Pool, done: set<seq<nat>>) {
    && Built(mem0, t0, p0, mem, t, p) && Unrestricted(mem, t) && p.used <= p.managed && |mem| == |mem0|
    && Grew(t0, p0, t, p, done)
  }

  lemma ProgressStart(mem: Mem, t: Tree, p: Pool)
    requires TreeOk(mem, t) && TreeSafe(t, p) && Unrestricted(mem, t) && p.used <= p.managed
    ensures Progress(mem, t, p, mem, t, p, {})
  {
    hide TreeOk, TreeSafe, Built, Unrestricted, Paths;
    BuiltSame(mem, t, p);
  }

  lemma ProgressNext(mem0: Mem, t0: Tree, p0: Pool, mem: Mem, t: Tree, p: Pool, done: set<seq<nat>>,
                     mem': Mem, t': Tree, p': Pool, va: nat, pa: nat, perms: Permissions, memType: MemType)
    requires Progress(mem0, t0, p0, mem, t, p, done)
    requires Mapped(mem, t, p, mem', t', p', va, pa, perms, memType)
    ensures Progress(mem0, t0, p0, mem', t', p', done + Prefixes(va))
  {
    hide TreeOk, TreeSafe, Built, Unrestricted, Mapped, Prefixes, Paths;
    BuiltRoot(mem0, t0, p0, mem, t, p);
    MappedPaths(mem, t, p, mem', t', p', va, pa, perms, memType);
    MappedBuilt(mem, t, p, mem', t', p', va, pa, perms, memType);
    StaysUnrestricted(mem, t, p, mem', t', p');
    BuiltTrans(mem0, t0, p0, mem, t, p, mem', t', p');
    StaysInside(mem, t, p, mem', t', p');
  }

  lemma StaysInside(mem: Mem, t: Tree, p: Pool, mem': Mem, t': Tree, p': Pool)
    requires Built(mem, t, p, mem', t', p') && p.used <= p.managed
    ensures p'.used <= p'.managed && |mem'| == |mem|
  {
    hide TreeOk, TreeSafe, Unrestricted, Extends;
  }

  lemma ProgressFacts(mem0: Mem, t0: Tree, p0: Pool, mem: Mem, t: Tree, p: Pool, done: set<seq<nat>>, va: nat,
                      perms: Permissions)
    requires Progress(mem0, t0, p0, mem, t, p, done)
    ensures TreeOk(mem, t) && TreeSafe(t, p) && 0 < t.root < |mem| && t.root == t0.root
    ensures PathPermits(mem, t.root, 0, va, perms) && Missing(mem, t.root, 0, va) == |Prefixes(va) - Paths(t)|
  {
    hide TreeOk, TreeSafe, Built, Unrestricted, Prefixes, Paths, PathPermits, Missing;
    BuiltRoot(mem0, t0, p0, mem, t, p);
    RootOf(mem, t);
    TableInRam(mem, t, t.root);
    UnrestrictedPermits(mem, t, t.root, va, perms);
    MissingCounted(mem, t, va);
  }

  /** Refused on the way: fewer pages were free than tables were missing. */
  lemma ProgressStuck(mem0: Mem, t0: Tree, p0: Pool, mem: Mem, t: Tree, p: Pool, done: set<seq<nat>>, va: nat,
                      all: set<seq<nat>>)
    requires Progress(mem0, t0, p0, mem, t, p, done)
    requires t.root < |mem| && |p.Free()| < Missing(mem, t.root, 0, va) && done + Prefixes(va) <= all
    ensures |p0.Free()| < |all - Paths(t0)|
  {
    hide TreeOk, TreeSafe, Built, Unrestricted, Prefixes, Paths, PathPermits, Missing, Grew;
    ProgressFacts(mem0, t0, p0, mem, t, p, done, va, Permissions(true, true, true, true));
    GrewStuck(t0, p0, t, p, done, Prefixes(va), all);
  }

  lemma ProgressBuilt(mem0: Mem, t0: Tree, p0: Pool, mem: Mem, t: Tree, p: Pool, done: set<seq<nat>>)
    requires Progress(mem0, t0, p0, mem, t, p, done)
    ensures Built(mem0, t0, p0, mem, t, p) && |p0.Free()| >= |done - Paths(t0)|
  {
    hide Built, Unrestricted, Paths;
    GrewEnough(t0, p0, t, p, done);
  }

  lemma ProgressTrans(mem0: Mem, t0: Tree, p0: Pool, mem1: Mem, t1: Tree, p1: Pool, done1: set<seq<nat>>,
                      mem2: Mem, t2: Tree, p2: Pool, done2: set<seq<nat>>)
    requires Progress(mem0, t0, p0, mem1, t1, p1, done1) && Progress(mem1, t1, p1, mem2, t2, p2, done2)
    ensures Progress(mem0, t0, p0, mem2, t2, p2, done1 + done2)
  {
    hide Built, Unrestricted, Paths;
    BuiltTrans(mem0, t0, p0, mem1, t1, p1, mem2, t2, p2);
    GrewTrans(t0, p0, t1, p1, done1, t2, p2, done2);
  }

  /** One more of the pages from `v` on. */
  lemma PagesNext(mem0: Mem, t0: Tree, p0: Pool, mem: Mem, t: Tree, p: Pool, v: nat, n: nat,
                  mem': Mem, t': Tree, p': Pool, pa: nat, perms: Permissions, memType: MemType)
    requires Progress(mem0, t0, p0, mem, t, p, PagePaths(v, n))
    requires Mapped(mem, t, p, mem', t', p', v + n * PAGE_SIZE, pa, perms, memType)
    ensures Progress(mem0, t0, p0, mem', t', p', PagePaths(v, n + 1))
  {
    hide Progress, Mapped, Prefixes;
    ProgressNext(mem0, t0, p0, mem, t, p, PagePaths(v, n), mem', t', p', v + n * PAGE_SIZE, pa, perms, memType);
  }

  /** Page `n` of `pages` is refused: too few pages were free for all of them. */
  lemma PagesStuck(mem0: Mem, t0: Tree, p0: Pool, mem: Mem, t: Tree, p: Pool, v: nat, n: nat, pages: nat)
    requires Progress(mem0, t0, p0, mem, t, p, PagePaths(v, n)) && n < pages
    requires t.root < |mem| && |p.Free()| < Missing(mem, t.root, 0, v + n * PAGE_SIZE)
    ensures |p0.Free()| < |PagePaths(v, pages) - Paths(t0)|
  {
    hide Progress, Prefixes, Paths, Missing;
    PagePathsGrow(v, n + 1, pages);
    ProgressStuck(mem0, t0, p0, mem, t, p, PagePaths(v, n), v + n * PAGE_SIZE, PagePaths(v, pages));
  }

  lemma ProgressShort(mem0: Mem, t0: Tree, p0: Pool, mem: Mem, t: Tree, p: Pool, done: set<seq<nat>>,
                      more: set<seq<nat>>, all: set<seq<nat>>)
    requires Progress(mem0, t0, p0, mem, t, p, done) && |p.Free()| < |more - Paths(t)| && done + more <= all
    ensures |p0.Free()| < |all - Paths(t0)|
  {
    hide Built, Unrestricted, Paths, Grew;
    GrewStuck(t0, p0, t, p, done, more, all);
  }

  lemma ProgressFree(mem0: Mem, t0: Tree, p0: Pool, mem: Mem, t: Tree, p: Pool, done: set<seq<nat>>)
    requires Progress(mem0, t0, p0, mem, t, p, done)
    ensures Unrestricted(mem, t)
  {
  }

  /** Refused: the series so far, and whatever tables the last request still built. */
  lemma ProgressEnds(mem0: Mem, t0: Tree, p0: Pool, mem: Mem, t: Tree, p: Pool, done: set<seq<nat>>, mem': Mem,
                     t': Tree, p': Pool)
    requires Progress(mem0, t0, p0, mem, t, p, done) && NotMapped(mem, t, p, mem', t', p')
    ensures Built(mem0, t0, p0, mem', t', p')
  {
    hide Built, Unrestricted, Grew;
    BuiltTrans(mem0, t0, p0, mem, t, p, mem', t', p');
  }

  // ---- walks of trees that restrict nothing

  /** No entry but the last, which may be a leaf, restricts anything. */
  ghost predicate TablesFree(w: seq<Bits.Word>) {
    forall k: nat :: k < |w| - 1 ==> NoRestriction(w[k])
  }

  predicate Unrestrictive(w: seq<Bits.Word>) {
    |w| == 4 && forall k: nat :: k < 3 ==> NoRestriction(w[k])
  }

  lemma TablesFreeCons(e: Bits.Word, rest: seq<Bits.Word>)
    requires TablesFree(rest) && NoRestriction(e)
    ensures TablesFree([e] + rest)
  {
    hide NoRestriction;
    var w := [e] + rest;
    assert forall k: nat :: 0 < k < |w| ==> w[k] == rest[k - 1];
  }

  lemma {:induction false} WalkUnrestricted(mem: Mem, t: Tree, f: nat, va: nat)
    requires TreeOk(mem, t) && Unrestricted(mem, t) && f in t.path
    ensures f < |mem| && |t.path[f]| <= 3
    ensures TablesFree(WalkFrom(mem, f, |t.path[f]|, va))
    decreases 3 - |t.path[f]|
  {
    hide Bits.Field, Linked, NoRestriction;
    var l := |t.path[f]|;
    var e := mem[f][Index(va, l)];
    if l < 3 && Valid(e) {
      assert LinkOk(mem, t, f, Index(va, l));
      var c := TableFrame(e);
      TableInRam(mem, t, c);
      WalkUnrestricted(mem, t, c, va);
      hide TablesFree;
      TablesFreeCons(e, WalkFrom(mem, c, l + 1, va));
      NoneFree();
    } else {
      assert |WalkFrom(mem, f, l, va)| <= 1;
    }
  }

  lemma NoneFree()
    ensures TablesFree([])
  {
  }

  lemma WalkUnrestrictive(mem: Mem, t: Tree, va: nat)
    requires TreeOk(mem, t) && Unrestricted(mem, t)
    ensures t.root < |mem| && (|Walk(mem, t.root, va)| == 4 ==> Unrestrictive(Walk(mem, t.root, va)))
  {
    hide TreeOk, Unrestricted, WalkFrom, NoRestriction;
    RootOf(mem, t);
    TableInRam(mem, t, t.root);
    WalkUnrestricted(mem, t, t.root, va);
    assert Walk(mem, t.root, va) == WalkFrom(mem, t.root, |t.path[t.root]|, va);
  }
}
