/** Four-level translation: what the hardware walk yields, and the tree of tables it walks. */
module TranslationTree {
  import opened Bits
  import opened Memory
  import opened Descriptors

  /** Bytes covered by one entry of a table at this level. */
  function Stride(level: nat): (s: nat)
    requires level <= 3
    ensures s > 0
  {
    if level == 0 then 0x80_0000_0000 else if level == 1 then 0x4000_0000 else if level == 2 then 0x20_0000 else 0x1000
  }

  /** Nine address bits: [47:39], [38:30], [29:21] or [20:12]. */
  function Index(va: nat, level: nat): (i: nat)
    requires level <= 3
    ensures i < 512
  {
    va / Stride(level) % 512
  }

  /** Bits [47:12] of an address, the part that is translated. */
  function PageOf(va: nat): nat {
    va / PAGE_SIZE % 0x10_0000_0000
  }

  /** A page number and its four digits to the base 512. */
  lemma Digits(p: nat)
    requires p < 0x10_0000_0000
    ensures p == p / 0x800_0000 * 0x800_0000 + p / 0x4_0000 % 512 * 0x4_0000 + p / 0x200 % 512 * 0x200 + p % 512
  {
    var a := p / 512;
    var b := a / 512;
    assert p / 0x4_0000 == b && p / 0x800_0000 == b / 512;
    assert p == a * 512 + p % 512 && a == b * 512 + a % 512 && b == b / 512 * 512 + b % 512;
  }

  lemma IndexOfPage(va: nat, level: nat)
    requires level <= 3
    ensures Index(va, level) == PageOf(va) / (Stride(level) / PAGE_SIZE) % 512
  {
    var d := Stride(level) / PAGE_SIZE;
    var c := if level == 0 then 1 else if level == 1 then 512 else if level == 2 then 0x4_0000 else 0x800_0000;
    assert d * 512 * c == 0x10_0000_0000 && d > 0 && Stride(level) == PAGE_SIZE * d;
    IndexOfPart(va, d, c);
  }

  lemma IndexOfPart(va: nat, d: nat, c: nat)
    requires d > 0 && d * 512 * c == 0x10_0000_0000
    ensures PAGE_SIZE * d > 0 && va / (PAGE_SIZE * d) % 512 == PageOf(va) / d % 512
  {
    var p := va / PAGE_SIZE;
    DivDiv(va, PAGE_SIZE, d);
    LowPart(p / 0x10_0000_0000, p % 0x10_0000_0000, d, 512, c);
  }

  /** The four indices are exactly bits [47:12]. */
  lemma IndicesArePage(va: nat)
    ensures PageOf(va) == Index(va, 0) * 0x800_0000 + Index(va, 1) * 0x4_0000 + Index(va, 2) * 0x200 + Index(va, 3)
  {
    hide Index;
    IndexOfPage(va, 0);
    IndexOfPage(va, 1);
    IndexOfPage(va, 2);
    IndexOfPage(va, 3);
    Digits(PageOf(va));
  }

  ghost predicate SamePage(va: nat, va': nat) {
    forall k: nat :: k <= 3 ==> Index(va, k) == Index(va', k)
  }

  lemma SamePageIff(va: nat, va': nat)
    ensures SamePage(va, va') <==> PageOf(va) == PageOf(va')
  {
    hide Index, PageOf;
    IndicesArePage(va);
    IndicesArePage(va');
    forall k: nat | k <= 3
      ensures PageOf(va) == PageOf(va') ==> Index(va, k) == Index(va', k)
    {
      IndexOfPage(va, k);
      IndexOfPage(va', k);
    }
  }

  // ---- the walk

  /** The descriptors met when translating `va` from the table in frame `f`, ending with the
    leaf; empty if the walk faults. */
  function WalkFrom(mem: Mem, f: nat, level: nat, va: nat): seq<Word>
    requires f < |mem| && level <= 3
    decreases 3 - level
  {
    var e := mem[f][Index(va, level)];
    if !Valid(e) || !TableOrPage(e) then []
    else if level == 3 then [e]
    else if TableFrame(e) >= |mem| then []
    else
      var rest := WalkFrom(mem, TableFrame(e), level + 1, va);
      if rest == [] then [] else [e] + rest
  }

  function Walk(mem: Mem, root: nat, va: nat): seq<Word>
    requires root < |mem|
  {
    WalkFrom(mem, root, 0, va)
  }

  /** The frame that a descriptor leads to. */
  function FrameIn(e: Word): nat {
    e / 0x1000 % 0x40_0000_0000 + e / 0x100 % 4 * 0x40_0000_0000
  }

  /** Four entries, each in the table that the one before leads to, all valid and of the right type. */
  ghost predicate Steps(mem: Mem, root: nat, va: nat, w: seq<Word>) {
    && root < |mem| && |w| == 4 && (forall k: nat :: k < 4 ==> w[k] % 4 == 3)
    && (forall k: nat :: k < 3 ==> FrameIn(w[k]) < |mem|)
    && w[0] == mem[root][va / 0x80_0000_0000 % 512]
    && w[1] == mem[FrameIn(w[0])][va / 0x4000_0000 % 512]
    && w[2] == mem[FrameIn(w[1])][va / 0x20_0000 % 512]
    && w[3] == mem[FrameIn(w[2])][va / 0x1000 % 512]
  }

  lemma TypeBits(e: Word)
    ensures Valid(e) && TableOrPage(e) <==> e % 4 == 3
    ensures TableFrame(e) == FrameIn(e)
  {
    hide Bits.Field, TableFrame, Valid, TableOrPage;
    PartsInNumbers(e);
    LowTwo(e);
  }

  lemma LowTwo(e: nat)
    ensures e % 4 == 3 <==> e % 2 == 1 && e / 2 % 2 == 1
  {
  }

  /** The walk from one table: its entry, and the walk from where that leads. */
  lemma {:induction false} WalkOne(mem: Mem, f: nat, level: nat, va: nat, w: seq<Word>)
    requires f < |mem| && level <= 3 && w != []
    ensures WalkFrom(mem, f, level, va) == w <==>
            && w[0] == mem[f][Index(va, level)] && w[0] % 4 == 3
            && if level == 3 then |w| == 1
               else FrameIn(w[0]) < |mem| && w[1..] != [] && WalkFrom(mem, FrameIn(w[0]), level + 1, va) == w[1..]
  {
    hide Index, FrameIn, TableFrame, Valid, TableOrPage;
    var e := mem[f][Index(va, level)];
    TypeBits(e);
    if level < 3 && FrameIn(e) < |mem| {
      var rest := WalkFrom(mem, FrameIn(e), level + 1, va);
      assert ([e] + rest)[1..] == rest;
      assert w == [w[0]] + w[1..];
    }
  }

  /** The four indices in numbers. */
  lemma Indices(va: nat, level: nat)
    requires level <= 3
    ensures Index(va, level) ==
            (if level == 0 then va / 0x80_0000_0000 else if level == 1 then va / 0x4000_0000
             else if level == 2 then va / 0x20_0000 else va / 0x1000) % 512
  {
  }

  /** The walk takes exactly these steps. */
  lemma WalkIs(mem: Mem, root: nat, va: nat, w: seq<Word>)
    requires root < |mem| && |w| == 4
    ensures Walk(mem, root, va) == w <==> Steps(mem, root, va, w)
  {
    var l0, l1, l2, l3 := 0, 1, 2, 3;
    hide Index, WalkFrom, FrameIn, Stride;
    Indices(va, l0);
    Indices(va, l1);
    Indices(va, l2);
    Indices(va, l3);
    WalkOne(mem, root, l0, va, w);
    if FrameIn(w[0]) < |mem| {
      WalkOne(mem, FrameIn(w[0]), l1, va, w[1..]);
      if FrameIn(w[1]) < |mem| {
        WalkOne(mem, FrameIn(w[1]), l2, va, w[1..][1..]);
        if FrameIn(w[2]) < |mem| {
          WalkOne(mem, FrameIn(w[2]), l3, va, w[1..][1..][1..]);
        }
      }
    }
  }

  /** Only bits [47:12] of an address matter to the walk. */
  lemma {:induction false} SamePageWalk(mem: Mem, f: nat, level: nat, va: nat, va': nat)
    requires f < |mem| && level <= 3 && SamePage(va, va')
    ensures WalkFrom(mem, f, level, va) == WalkFrom(mem, f, level, va')
    decreases 3 - level
  {
    hide Bits.Field, Index;
    var e := mem[f][Index(va, level)];
    if level < 3 && TableFrame(e) < |mem| {
      SamePageWalk(mem, TableFrame(e), level + 1, va, va');
    }
  }

  lemma {:induction false} WalkLength(mem: Mem, f: nat, level: nat, va: nat)
    requires f < |mem| && level <= 3
    ensures WalkFrom(mem, f, level, va) == [] || |WalkFrom(mem, f, level, va)| == 4 - level
    decreases 3 - level
  {
    var e := mem[f][Index(va, level)];
    if level < 3 && Valid(e) && TableOrPage(e) && TableFrame(e) < |mem| {
      WalkLength(mem, TableFrame(e), level + 1, va);
    }
  }

  // ---- the tree

  /** The tables of one map: the root's frame, and for every table the indices leading to it. */
  datatype Tree = Tree(root: nat, path: map<nat, seq<nat>>) {
    function Tables(): set<nat> { path.Keys }
  }

  /** A valid entry above level 3 leads to the one table whose path goes through it. */
  ghost predicate LinkOk(mem: Mem, t: Tree, f: nat, i: nat)
    requires f in t.path && f < |mem| && i < 512
  {
    |t.path[f]| < 3 && Valid(mem[f][i]) ==>
      && TableOrPage(mem[f][i])
      && TableFrame(mem[f][i]) in t.path
      && t.path[TableFrame(mem[f][i])] == t.path[f] + [i]
  }

  /** Some entry leads to table `c`. */
  ghost predicate Linked(mem: Mem, t: Tree, c: nat)
    requires forall f :: f in t.path ==> f < |mem|
  {
    exists f, i: nat ::
      && f in t.path && i < 512 && |t.path[f]| < 3
      && Valid(mem[f][i]) && TableFrame(mem[f][i]) == c
  }

  ghost predicate TreeShape(frames: nat, t: Tree) {
    && t.root in t.path && t.path[t.root] == []
    && (forall f :: f in t.path ==> 0 < f < frames && |t.path[f]| <= 3)
    && (forall f, g :: f in t.path && g in t.path && t.path[f] == t.path[g] ==> f == g)
  }

  /** A tree: every valid entry above level 3 leads to a table of the tree, and every table but
    the root is led to. */
  ghost predicate TreeOk(mem: Mem, t: Tree) {
    && TreeShape(|mem|, t)
    && (forall f, i: nat :: f in t.path && i < 512 ==> LinkOk(mem, t, f, i))
    && (forall c :: c in t.path && c != t.root ==> Linked(mem, t, c))
  }

  /** No two entries lead to the same table. */
  lemma ReferencedOnce(mem: Mem, t: Tree, f: nat, i: nat, g: nat, j: nat)
    requires TreeOk(mem, t) && f in t.path && g in t.path && i < 512 && j < 512
    requires |t.path[f]| < 3 && |t.path[g]| < 3 && Valid(mem[f][i]) && Valid(mem[g][j])
    requires TableFrame(mem[f][i]) == TableFrame(mem[g][j])
    ensures f == g && i == j
  {
    assert LinkOk(mem, t, f, i) && LinkOk(mem, t, g, j);
    var p, q := t.path[f], t.path[g];
    assert (p + [i])[..|p|] == p && (q + [j])[..|q|] == q;
    assert |p + [i]| == |q + [j]|;
    assert (p + [i])[|p|] == i && (q + [j])[|q|] == j;
  }

  /** The address lies below the table with these indices. */
  ghost predicate Below(path: seq<nat>, va: nat)
    requires |path| <= 4
  {
    forall k: nat :: k < |path| ==> path[k] == Index(va, k)
  }

  /** Tables that did not change give the same walk. */
  lemma {:induction false} WalkElsewhere(mem: Mem, mem': Mem, t: Tree, changed: set<nat>, f: nat, va: nat)
    requires TreeOk(mem, t) && SameOutside(mem, mem', changed) && t.Tables() !! changed && f in t.path
    ensures WalkFrom(mem', f, |t.path[f]|, va) == WalkFrom(mem, f, |t.path[f]|, va)
    decreases 3 - |t.path[f]|
  {
    hide Field, Linked;
    var l := |t.path[f]|;
    assert f in t.Tables();
    var i := Index(va, l);
    if l < 3 && Valid(mem[f][i]) {
      assert LinkOk(mem, t, f, i);
      WalkElsewhere(mem, mem', t, changed, TableFrame(mem[f][i]), va);
    }
  }

  lemma TreeElsewhere(mem: Mem, mem': Mem, t: Tree, changed: set<nat>)
    requires TreeOk(mem, t) && SameOutside(mem, mem', changed) && t.Tables() !! changed
    ensures TreeOk(mem', t)
  {
    assert forall f :: f in t.path ==> f in t.Tables() && mem'[f] == mem[f];
    forall f, i: nat | f in t.path && i < 512
      ensures LinkOk(mem', t, f, i)
    {
      assert LinkOk(mem, t, f, i);
    }
    forall c | c in t.path && c != t.root
      ensures Linked(mem', t, c)
    {
      LinkedStays(mem, mem', t, t, c);
    }
  }

  lemma LinkedStays(mem: Mem, mem': Mem, t: Tree, t': Tree, c: nat)
    requires forall f :: f in t.path ==> f < |mem|
    requires forall f :: f in t'.path ==> f < |mem'|
    requires Linked(mem, t, c)
    requires forall f, i: nat :: f in t.path && i < 512 && |t.path[f]| < 3 && Valid(mem[f][i]) ==>
                              f in t'.path && |t'.path[f]| < 3 && mem'[f][i] == mem[f][i]
    ensures Linked(mem', t', c)
  {
    var f, i: nat :| f in t.path && i < 512 && |t.path[f]| < 3 && Valid(mem[f][i]) && TableFrame(mem[f][i]) == c;
    assert Valid(mem'[f][i]) && TableFrame(mem'[f][i]) == c;
  }

  // ---- installing a table

  function Grown(t: Tree, f: nat, i: nat, n: nat): Tree
    requires f in t.path
  {
    t.(path := t.path[n := t.path[f] + [i]])
  }

  /** `mem'` is `mem` with frame `n` cleared and entry `i` of table `f` leading to it. */
  ghost predicate TableInstalled(mem: Mem, mem': Mem, t: Tree, f: nat, i: nat, n: nat) {
    && f in t.path && f < |mem| && i < 512 && |t.path[f]| < 3 && !Valid(mem[f][i])
    && n !in t.path && 0 < n < |mem| == |mem'|
    && (forall g: nat :: g < |mem| && g != f && g != n ==> mem'[g] == mem[g])
    && mem'[n] == ZeroFrame()
    && (forall j: nat :: j < 512 && j != i ==> mem'[f][j] == mem[f][j])
    && Valid(mem'[f][i]) && TableOrPage(mem'[f][i]) && TableFrame(mem'[f][i]) == n
  }

  lemma ZeroInvalid()
    ensures !Valid(0)
  {
    ZeroFields(0, 1);
  }

  lemma WalkOfZero(mem: Mem, n: nat, level: nat, va: nat)
    requires n < |mem| && level <= 3 && mem[n] == ZeroFrame()
    ensures WalkFrom(mem, n, level, va) == []
  {
    ZeroInvalid();
  }

  /** An empty table translates nothing, so no walk changes. */
  lemma {:induction false} InstallKeepsWalks(mem: Mem, mem': Mem, t: Tree, f: nat, i: nat, n: nat, g: nat, va: nat)
    requires TreeOk(mem, t) && TableInstalled(mem, mem', t, f, i, n) && g in t.path
    ensures WalkFrom(mem', g, |t.path[g]|, va) == WalkFrom(mem, g, |t.path[g]|, va)
    decreases 3 - |t.path[g]|
  {
    hide Field, Linked;
    var l := |t.path[g]|;
    var j := Index(va, l);
    if g == f && j == i {
      WalkOfZero(mem', n, l + 1, va);
    } else if l < 3 && Valid(mem[g][j]) {
      assert LinkOk(mem, t, g, j);
      InstallKeepsWalks(mem, mem', t, f, i, n, TableFrame(mem[g][j]), va);
    }
  }

  /** No table lies below an invalid entry. */
  lemma PathIsNew(mem: Mem, t: Tree, f: nat, i: nat, g: nat)
    requires TreeOk(mem, t) && f in t.path && i < 512 && |t.path[f]| < 3 && !Valid(mem[f][i]) && g in t.path
    ensures t.path[g] != t.path[f] + [i]
  {
    if g != t.root {
      assert Linked(mem, t, g);
      var f', i': nat :| f' in t.path && i' < 512 && |t.path[f']| < 3 && Valid(mem[f'][i'])
        && TableFrame(mem[f'][i']) == g;
      assert LinkOk(mem, t, f', i');
      var p, q := t.path[f], t.path[f'];
      assert (p + [i])[..|p|] == p && (q + [i'])[..|q|] == q;
      assert (p + [i])[|p|] == i && (q + [i'])[|q|] == i';
    }
  }

  lemma InstallShape(mem: Mem, mem': Mem, t: Tree, f: nat, i: nat, n: nat)
    requires TreeOk(mem, t) && TableInstalled(mem, mem', t, f, i, n)
    ensures TreeShape(|mem'|, Grown(t, f, i, n))
  {
    forall g | g in t.path
      ensures t.path[g] != t.path[f] + [i]
    {
      PathIsNew(mem, t, f, i, g);
    }
  }

  lemma InstallLinks(mem: Mem, mem': Mem, t: Tree, f: nat, i: nat, n: nat, g: nat, j: nat)
    requires TreeOk(mem, t) && TableInstalled(mem, mem', t, f, i, n)
    requires g in Grown(t, f, i, n).path && j < 512
    ensures LinkOk(mem', Grown(t, f, i, n), g, j)
  {
    ZeroInvalid();
    if g != n && !(g == f && j == i) {
      assert LinkOk(mem, t, g, j);
      assert mem'[g][j] == mem[g][j];
    }
  }

  /** The tree with the new table in it. */
  lemma InstallKeepsTree(mem: Mem, mem': Mem, t: Tree, f: nat, i: nat, n: nat)
    requires TreeOk(mem, t) && TableInstalled(mem, mem', t, f, i, n)
    ensures TreeOk(mem', Grown(t, f, i, n))
  {
    var t' := Grown(t, f, i, n);
    InstallShape(mem, mem', t, f, i, n);
    forall g, j: nat | g in t'.path && j < 512
      ensures LinkOk(mem', t', g, j)
    {
      InstallLinks(mem, mem', t, f, i, n, g, j);
    }
    forall c | c in t'.path && c != t'.root
      ensures Linked(mem', t', c)
    {
      if c == n {
        assert f in t'.path && |t'.path[f]| < 3 && Valid(mem'[f][i]) && TableFrame(mem'[f][i]) == c;
      } else {
        assert Linked(mem, t, c);
        LinkedStays(mem, mem', t, t', c);
      }
    }
  }

  // ---- writing a leaf

  /** `mem'` is `mem` with entry `i` of the level 3 table `f` overwritten. */
  ghost predicate LeafWritten(mem: Mem, mem': Mem, t: Tree, f: nat, i: nat, w: Word) {
    && f in t.path && f < |mem| && i < 512 && |t.path[f]| == 3
    && mem' == mem[f := mem[f][i := w]]
  }

  lemma LeafKeepsTree(mem: Mem, mem': Mem, t: Tree, f: nat, i: nat, w: Word)
    requires TreeOk(mem, t) && LeafWritten(mem, mem', t, f, i, w)
    ensures TreeOk(mem', t)
  {
    forall g, j: nat | g in t.path && j < 512
      ensures LinkOk(mem', t, g, j)
    {
      assert LinkOk(mem, t, g, j);
    }
    forall c | c in t.path && c != t.root
      ensures Linked(mem', t, c)
    {
      assert Linked(mem, t, c);
      LinkedStays(mem, mem', t, t, c);
    }
  }

  lemma BelowEntry(path: seq<nat>, i: nat, va: nat)
    requires |path| <= 3
    ensures Below(path + [i], va) <==> Below(path, va) && Index(va, |path|) == i
  {
    var longer := path + [i];
    assert longer[|path|] == i;
    assert forall k: nat :: k < |path| ==> longer[k] == path[k];
  }

  /** A leaf is met only by addresses whose indices lead to it. */
  lemma {:induction false} LeafKeepsOthers(mem: Mem, mem': Mem, t: Tree, f: nat, i: nat, w: Word, g: nat, va: nat)
    requires TreeOk(mem, t) && LeafWritten(mem, mem', t, f, i, w)
    requires g in t.path && Below(t.path[g], va) && !Below(t.path[f] + [i], va)
    ensures WalkFrom(mem', g, |t.path[g]|, va) == WalkFrom(mem, g, |t.path[g]|, va)
    decreases 3 - |t.path[g]|
  {
    hide Field, Linked;
    var l := |t.path[g]|;
    var j := Index(va, l);
    if l == 3 {
      BelowEntry(t.path[f], i, va);
    } else if Valid(mem[g][j]) {
      assert LinkOk(mem, t, g, j);
      LeafKeepsOthers(mem, mem', t, f, i, w, TableFrame(mem[g][j]), va);
    }
  }

  /** Table `c` is what entry `Index(va, level)` of table `f` leads to. */
  ghost predicate Step(mem: Mem, f: nat, level: nat, va: nat, c: nat) {
    && level < 3 && f < |mem| && c < |mem|
    && var e := mem[f][Index(va, level)]; Valid(e) && TableOrPage(e) && TableFrame(e) == c
  }

  /** A walk along three links ends at the leaf. */
  lemma WalkAlong(mem: Mem, f0: nat, f1: nat, f2: nat, f3: nat, va: nat)
    requires Step(mem, f0, 0, va, f1) && Step(mem, f1, 1, va, f2) && Step(mem, f2, 2, va, f3)
    ensures var leaf := mem[f3][Index(va, 3)];
            Walk(mem, f0, va) ==
            if Valid(leaf) && TableOrPage(leaf)
            then [mem[f0][Index(va, 0)], mem[f1][Index(va, 1)], mem[f2][Index(va, 2)], leaf]
            else []
  {
    hide Field, Index;
    var leaf := mem[f3][Index(va, 3)];
    var ok := Valid(leaf) && TableOrPage(leaf);
    assert WalkFrom(mem, f3, 3, va) == if ok then [leaf] else [];
    assert WalkFrom(mem, f2, 2, va) == if ok then [mem[f2][Index(va, 2)], leaf] else [];
    assert WalkFrom(mem, f1, 1, va) == if ok then [mem[f1][Index(va, 1)], mem[f2][Index(va, 2)], leaf] else [];
  }

  // ---- what a mapping still needs

  /** Tables missing on the way of `va` below the table in frame `f`. */
  function Missing(mem: Mem, f: nat, level: nat, va: nat): (n: nat)
    requires f < |mem| && level <= 3
    ensures n <= 3 - level
    decreases 3 - level
  {
    if level == 3 then 0
    else
      var e := mem[f][Index(va, level)];
      if !Valid(e) then 3 - level
      else if TableFrame(e) >= |mem| then 0
      else Missing(mem, TableFrame(e), level + 1, va)
  }

  /** Every table already on the way of `va` permits the request. */
  predicate PathPermits(mem: Mem, f: nat, level: nat, va: nat, perms: Permissions)
    requires f < |mem| && level <= 3
    decreases 3 - level
  {
    if level == 3 then true
    else
      var e := mem[f][Index(va, level)];
      if !Valid(e) then true
      else TablePermits(e, perms) && (TableFrame(e) >= |mem| || PathPermits(mem, TableFrame(e), level + 1, va, perms))
  }
}
