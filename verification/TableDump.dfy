/** print_page_table_tree: what a dump of the tables lists. */
module TableDump {
  import opened Bits
  import opened Memory
  import opened Descriptors
  import opened TranslationTree
  import opened PageTables

  /** One line of the dump: a page's address and its leaf. */
  datatype Line = Line(va: nat, leaf: Word)

  /** The permissions with which the dump follows a table. */
  const DUMP_PERMISSIONS: Permissions := Permissions(true, true, true, true)

  /** The dump enters the table this entry leads to. */
  predicate Followed(e: Word) {
    Valid(e) && TableOrPage(e) && TablePermits(e, DUMP_PERMISSIONS)
  }

  /** The lines of the first `n` entries of the table in frame `f`. */
  function LinesUpTo(mem: Mem, f: nat, level: nat, base: nat, n: nat): seq<Line>
    requires f < |mem| && level <= 3 && n <= 512
    decreases 3 - level, n
  {
    if n == 0 then [] else LinesUpTo(mem, f, level, base, n - 1) + LinesOf(mem, f, level, base, n - 1)
  }

  /** The lines of entry `i`. */
  function LinesOf(mem: Mem, f: nat, level: nat, base: nat, i: nat): seq<Line>
    requires f < |mem| && level <= 3 && i < 512
    decreases 3 - level, i
  {
    var e := mem[f][i];
    if level == 3 then (if Valid(e) then [Line(base + i * Stride(3), e)] else [])
    else if Followed(e) && TableFrame(e) < |mem|
      then LinesUpTo(mem, TableFrame(e), level + 1, base + i * Stride(level), 512)
    else []
  }

  /** What the dump lists, found by walking from an address. */
  predicate Shown(mem: Mem, f: nat, level: nat, va: nat, leaf: Word)
    requires f < |mem| && level <= 3
    decreases 3 - level
  {
    var e := mem[f][Index(va, level)];
    if level == 3 then Valid(e) && e == leaf
    else Followed(e) && TableFrame(e) < |mem| && Shown(mem, TableFrame(e), level + 1, va, leaf)
  }

  /** First address of slot `i` of a table whose range starts at slot `512 * q` of its level. */
  function SlotStart(level: nat, q: nat, i: nat): nat
    requires level <= 3
  {
    (512 * q + i) * Stride(level)
  }

  lemma SlotFacts(level: nat, q: nat, i: nat, va: nat)
    requires level <= 3 && i < 512 && SlotStart(level, q, i) <= va < SlotStart(level, q, i + 1)
    ensures Index(va, level) == i
  {
    var s := Stride(level);
    DivModUnique(va, s, 512 * q + i, va - SlotStart(level, q, i));
  }

  /** A slot is the range of the table below it. */
  lemma SlotBelow(level: nat, q: nat, i: nat)
    requires level < 3
    ensures SlotStart(level, q, 0) + i * Stride(level) == SlotStart(level, q, i) == SlotStart(level + 1, 512 * q + i, 0)
    ensures SlotStart(level, q, i + 1) == SlotStart(level + 1, 512 * q + i, 512)
  {
  }

  lemma SlotOrder(level: nat, q: nat, i: nat, j: nat)
    requires level <= 3 && i <= j
    ensures SlotStart(level, q, i) <= SlotStart(level, q, j)
  {
    MulMono(512 * q + i, 512 * q + j, Stride(level));
  }

  lemma LeafLine(mem: Mem, f: nat, q: nat, i: nat, line: Line)
    requires f < |mem| && i < 512
    ensures line in LinesOf(mem, f, 3, SlotStart(3, q, 0), i) <==>
            SlotStart(3, q, i) <= line.va < SlotStart(3, q, i + 1) && line.va % PAGE_SIZE == 0
              && Shown(mem, f, 3, line.va, line.leaf)
  {
    LeafSlot(q, i, line.va);
    hide Valid, SlotStart, Index, Stride;
    SlotFacts(3, q, i, SlotStart(3, q, i));
    if line.va == SlotStart(3, q, i) {
      assert Index(line.va, 3) == i;
    }
  }

  /** A slot of level 3 is one page. */
  lemma LeafSlot(q: nat, i: nat, va: nat)
    ensures SlotStart(3, q, 0) + i * Stride(3) == SlotStart(3, q, i) < SlotStart(3, q, i + 1)
    ensures SlotStart(3, q, i) <= va < SlotStart(3, q, i + 1) && va % PAGE_SIZE == 0 <==> va == SlotStart(3, q, i)
  {
  }

  /** Entry `i` contributes exactly the shown pages of its slot. */
  lemma {:induction false} LinesOfIs(mem: Mem, f: nat, level: nat, q: nat, i: nat, line: Line)
    requires f < |mem| && level <= 3 && i < 512
    ensures line in LinesOf(mem, f, level, SlotStart(level, q, 0), i) <==>
            SlotStart(level, q, i) <= line.va < SlotStart(level, q, i + 1) && line.va % PAGE_SIZE == 0
              && Shown(mem, f, level, line.va, line.leaf)
    decreases 3 - level, i
  {
    hide SlotStart, Followed, TableFrame, Index, LinesUpTo, LinesOf, Shown;
    if level == 3 {
      LeafLine(mem, f, q, i, line);
    } else {
      SlotBelow(level, q, i);
      TableLines(mem, f, level, SlotStart(level, q, 0), i);
      var e := mem[f][i];
      if Followed(e) && TableFrame(e) < |mem| {
        LinesUpToIs(mem, TableFrame(e), level + 1, 512 * q + i, 512, line);
      }
      if SlotStart(level, q, i) <= line.va < SlotStart(level, q, i + 1) {
        SlotFacts(level, q, i, line.va);
        ShownBelow(mem, f, level, line.va, line.leaf);
      }
    }
  }

  lemma TableLines(mem: Mem, f: nat, level: nat, base: nat, i: nat)
    requires f < |mem| && level < 3 && i < 512
    ensures var e := mem[f][i];
            LinesOf(mem, f, level, base, i) ==
            if Followed(e) && TableFrame(e) < |mem|
              then LinesUpTo(mem, TableFrame(e), level + 1, base + i * Stride(level), 512) else []
  {
  }

  lemma ShownBelow(mem: Mem, f: nat, level: nat, va: nat, leaf: Word)
    requires f < |mem| && level < 3
    ensures var e := mem[f][Index(va, level)];
            Shown(mem, f, level, va, leaf) <==>
            Followed(e) && TableFrame(e) < |mem| && Shown(mem, TableFrame(e), level + 1, va, leaf)
  {
  }

  lemma {:induction false} LinesUpToIs(mem: Mem, f: nat, level: nat, q: nat, n: nat, line: Line)
    requires f < |mem| && level <= 3 && n <= 512
    ensures line in LinesUpTo(mem, f, level, SlotStart(level, q, 0), n) <==>
            SlotStart(level, q, 0) <= line.va < SlotStart(level, q, n) && line.va % PAGE_SIZE == 0
              && Shown(mem, f, level, line.va, line.leaf)
    decreases 3 - level, n
  {
    hide SlotStart, Shown;
    if n > 0 {
      LinesUpToIs(mem, f, level, q, n - 1, line);
      LinesOfIs(mem, f, level, q, n - 1, line);
      SlotOrder(level, q, 0, n - 1);
      SlotOrder(level, q, n - 1, n);
    }
  }

  ghost predicate Increasing(lines: seq<Line>) {
    forall i: nat, j: nat :: i < j < |lines| ==> lines[i].va < lines[j].va
  }

  ghost predicate Within(lines: seq<Line>, lo: nat, hi: nat) {
    forall i: nat :: i < |lines| ==> lo <= lines[i].va < hi
  }

  lemma JoinIncreasing(a: seq<Line>, b: seq<Line>, lo: nat, mid: nat, hi: nat)
    requires Increasing(a) && Increasing(b) && Within(a, lo, mid) && Within(b, mid, hi) && lo <= mid <= hi
    ensures Increasing(a + b) && Within(a + b, lo, hi)
  {
  }

  /** Lines come in strictly increasing order of address, so no page is listed twice. */
  lemma {:induction false} LinesIncrease(mem: Mem, f: nat, level: nat, q: nat, n: nat)
    requires f < |mem| && level <= 3 && n <= 512
    ensures Increasing(LinesUpTo(mem, f, level, SlotStart(level, q, 0), n))
    ensures Within(LinesUpTo(mem, f, level, SlotStart(level, q, 0), n), SlotStart(level, q, 0), SlotStart(level, q, n))
    decreases 3 - level, n
  {
    hide SlotStart, Increasing, Within;
    if n == 0 {
      NoLines(SlotStart(level, q, 0), SlotStart(level, q, n));
    } else {
      LinesIncrease(mem, f, level, q, n - 1);
      LinesOfIncrease(mem, f, level, q, n - 1);
      SlotOrder(level, q, 0, n - 1);
      SlotOrder(level, q, n - 1, n);
      JoinIncreasing(LinesUpTo(mem, f, level, SlotStart(level, q, 0), n - 1),
                     LinesOf(mem, f, level, SlotStart(level, q, 0), n - 1), SlotStart(level, q, 0), SlotStart(level, q,
                     n - 1), SlotStart(level, q, n));
    }
  }

  lemma NoLines(lo: nat, hi: nat)
    ensures Increasing([]) && Within([], lo, hi)
  {
  }

  lemma {:induction false} LinesOfIncrease(mem: Mem, f: nat, level: nat, q: nat, i: nat)
    requires f < |mem| && level <= 3 && i < 512
    ensures Increasing(LinesOf(mem, f, level, SlotStart(level, q, 0), i))
    ensures Within(LinesOf(mem, f, level, SlotStart(level, q, 0), i), SlotStart(level, q, i),
                   SlotStart(level, q, i + 1))
    decreases 3 - level, i
  {
    if level < 3 {
      SlotBelow(level, q, i);
      hide SlotStart;
      if TableFrame(mem[f][i]) < |mem| {
        LinesIncrease(mem, TableFrame(mem[f][i]), level + 1, 512 * q + i, 512);
      }
    }
  }

  // ---- the dump and the walk

  /** The dump asks for everything, so any restriction at all stops it. */
  lemma PermitsDump(e: Word)
    ensures TablePermits(e, DUMP_PERMISSIONS) <==> ApTable(e) == 0
  {
    Pow2Values();
  }

  lemma RestrictionsSplit(e: Word, rest: seq<Word>)
    requires rest != []
    ensures var w := [e] + rest;
            && w[|w| - 1] == rest[|rest| - 1]
            && ((forall k: nat :: k < |w| - 1 ==> ApTable(w[k]) == 0) <==>
                ApTable(e) == 0 && forall k: nat :: k < |rest| - 1 ==> ApTable(rest[k]) == 0)
  {
    var w := [e] + rest;
    assert w[0] == e;
    if forall k: nat :: k < |w| - 1 ==> ApTable(w[k]) == 0 {
      forall k: nat | k < |rest| - 1
        ensures ApTable(rest[k]) == 0
      {
        assert w[k + 1] == rest[k];
      }
    }
  }

  /** A page that translates is listed exactly when no table on its way carries a restriction. */
  lemma {:induction false} ListedIff(mem: Mem, f: nat, level: nat, va: nat)
    requires f < |mem| && level <= 3 && WalkFrom(mem, f, level, va) != []
    ensures var w := WalkFrom(mem, f, level, va);
            Shown(mem, f, level, va, w[|w| - 1]) <==> forall k: nat :: k < |w| - 1 ==> ApTable(w[k]) == 0
    decreases 3 - level
  {
    hide Index, Bits.Field;
    var e := mem[f][Index(va, level)];
    if level < 3 {
      var rest := WalkFrom(mem, TableFrame(e), level + 1, va);
      ListedIff(mem, TableFrame(e), level + 1, va);
      PermitsDump(e);
      RestrictionsSplit(e, rest);
      assert WalkFrom(mem, f, level, va) == [e] + rest;
    }
  }

  /** On tables that map_page built, listed means translated. */
  lemma {:induction false} ListedIsTranslated(mem: Mem, t: Tree, f: nat, va: nat, leaf: Word)
    requires TreeOk(mem, t) && Unrestricted(mem, t) && f in t.path
    ensures f < |mem| && |t.path[f]| <= 3
    ensures var w := WalkFrom(mem, f, |t.path[f]|, va);
            Shown(mem, f, |t.path[f]|, va, leaf) <==> w != [] && w[|w| - 1] == leaf
    decreases 3 - |t.path[f]|
  {
    hide Index, Bits.Field, Linked;
    var l := |t.path[f]|;
    var e := mem[f][Index(va, l)];
    if l < 3 && Valid(e) {
      assert LinkOk(mem, t, f, Index(va, l));
      PermitsDump(e);
      ListedIsTranslated(mem, t, TableFrame(e), va, leaf);
    }
  }

  /** print_page_table_tree */
  method PrintPageTableTree(m: Machine, table: nat, level: nat, base: nat, ghost f: nat, ghost t: Tree)
    returns (lines: seq<Line>)
    requires m.Valid() && TreeOk(m.mem, t) && level <= 3
    requires f in t.path && f < |m.mem| && |t.path[f]| == level && (table == 0 || table == PageVa(m.kernelBase, f))
    ensures lines == if table == 0 then [] else LinesUpTo(m.mem, f, level, base, 512)
    decreases 3 - level, 513
  {
    hide TreeOk, LinesOf, VaToPa;
    lines := [];
    if table == 0 {
      return;
    }
    var i := 0;
    while i < 512
      invariant i <= 512 && lines == LinesUpTo(m.mem, f, level, base, i)
    {
      EntryAddress(m.kernelBase, f, i, |m.mem|);
      var entry := m.LoadWord(table + 8 * i, f, i);
      var more := PrintEntry(m, entry, i, level, base, f, t);
      lines := lines + more;
      i := i + 1;
    }
  }

  /** The body of the loop: invalid entries are skipped, links are followed if their restrictions allow. */
  method PrintEntry(m: Machine, entry: Word, i: nat, level: nat, base: nat, ghost f: nat, ghost t: Tree)
    returns (lines: seq<Line>)
    requires m.Valid() && TreeOk(m.mem, t) && level <= 3 && i < 512
    requires f in t.path && f < |m.mem| && |t.path[f]| == level && entry == m.mem[f][i]
    ensures lines == LinesOf(m.mem, f, level, base, i)
    decreases 3 - level, 512
  {
    hide TreeOk, Field, TablePermits, LinesUpTo, TableFrame;
    lines := [];
    if !Valid(entry) {
      return;
    }
    var start := base + i * Stride(level);
    if level == 3 {
      lines := [Line(start, entry)];
    } else if TableOrPage(entry) {
      EntryLeads(m.mem, t, f, i);
      var next := 0;
      if TablePermits(entry, DUMP_PERMISSIONS) {
        next := PaToVa(m.kernelBase, TableFrame(entry) * PAGE_SIZE);
        LinearMap(m.kernelBase, TableFrame(entry) * PAGE_SIZE);
      }
      lines := PrintPageTableTree(m, next, level + 1, start, TableFrame(entry), t);
    }
  }

  lemma EntryLeads(mem: Mem, t: Tree, f: nat, i: nat)
    requires TreeOk(mem, t) && f in t.path && i < 512 && |t.path[f]| < 3 && f < |mem| && Valid(mem[f][i])
    ensures var c := TableFrame(mem[f][i]); c in t.path && 0 < c < |mem| && |t.path[c]| == |t.path[f]| + 1
  {
    hide Linked, Bits.Field;
    assert LinkOk(mem, t, f, i);
  }

  /** The page at this address translates to this leaf. */
  ghost predicate Translates(mem: Mem, root: nat, line: Line) {
    && root < |mem| && line.va < 0x1_0000_0000_0000 && line.va % PAGE_SIZE == 0
    && |Walk(mem, root, line.va)| == 4 && Walk(mem, root, line.va)[3] == line.leaf
  }

  lemma LineIff(mem: Mem, t: Tree, level: nat, q: nat, line: Line)
    requires TreeOk(mem, t) && Unrestricted(mem, t) && level == q == 0 && t.root < |mem|
    ensures line in LinesUpTo(mem, t.root, level, SlotStart(level, q, 0), 512) <==> Translates(mem, t.root, line)
  {
    hide TreeOk, Unrestricted, LinesUpTo, WalkFrom, Shown, SlotStart, Stride, Index;
    RootFacts(mem, t);
    WholeRange(level, q);
    LinesUpToIs(mem, t.root, level, q, 512, line);
    ListedIsTranslated(mem, t, t.root, line.va, line.leaf);
    WalkLength(mem, t.root, level, line.va);
  }

  /** dump_memory_map: on tables that map_page built, the lines are exactly the pages that translate,
    each once, in the order of their addresses. */
  method DumpMemoryMap(m: Machine, root: nat, ghost t: Tree) returns (lines: seq<Line>)
    requires m.Valid() && TreeOk(m.mem, t) && Unrestricted(m.mem, t) && root == PageVa(m.kernelBase, t.root)
             && t.root < |m.mem|
    ensures Increasing(lines)
    ensures forall line :: line in lines <==> Translates(m.mem, t.root, line)
  {
    hide TreeOk, Unrestricted, LinesUpTo, SlotStart, Increasing, Translates;
    RootFacts(m.mem, t);
    var level, base := 0, 0;
    lines := PrintPageTableTree(m, root, level, base, t.root, t);
    WholeRange(level, base);
    LinesIncrease(m.mem, t.root, level, base, 512);
    forall line: Line
      ensures line in lines <==> Translates(m.mem, t.root, line)
    {
      LineIff(m.mem, t, level, base, line);
    }
  }

  lemma RootFacts(mem: Mem, t: Tree)
    requires TreeOk(mem, t)
    ensures 0 < t.root && t.root in t.path && t.path[t.root] == []
  {
  }

  lemma WholeRange(level: nat, q: nat)
    requires level == 0 && q == 0
    ensures SlotStart(level, q, 0) == 0 && SlotStart(level, q, 512) == 0x1_0000_0000_0000
  {
  }
}
