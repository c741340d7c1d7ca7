/** gicv3.c: per-interrupt configuration, packed into bit and byte lanes of device registers. */
module Gic {
  import opened Bits

  const MAX_INT_ID: nat := 1024
  const DEFAULT_PRIORITY: nat := 0xA0

  /** Where the registers are: distributor, redistributors, and which of those belongs to this core. */
  datatype Layout = Layout(dist: nat, redist: nat, cpu: nat) {
    function SgiBase(): nat { redist + cpu * 0x20000 + 0x10000 }

    /** Registers of SGIs and PPIs are the core's own, those of SPIs the distributor's. */
    function Base(i: nat): nat { if i < 32 then SgiBase() else dist }

    /** The two 64 KB register blocks share no address. */
    predicate Apart() { dist + 0x10000 <= SgiBase() || SgiBase() + 0x10000 <= dist }
  }

  predicate InBlockAt(base: nat, a: nat) { base <= a < base + 0x1_0000 }

  /** The two blocks are apart exactly if no address is in both. */
  lemma ApartIff(g: Layout)
    ensures var sgi := g.redist + g.cpu * 0x20000 + 0x10000;
            g.Apart() <==> forall a: nat :: !(InBlockAt(g.dist, a) && InBlockAt(sgi, a))
  {
    var sgi := g.redist + g.cpu * 0x20000 + 0x10000;
    if !g.Apart() {
      var a := if g.dist < sgi then sgi else g.dist;
      assert InBlockAt(g.dist, a) && InBlockAt(sgi, a);
    }
  }

  /** What is configured for an interrupt. */
  datatype Family = Group | Modifier | Priority | Enable | Route

  /** Bits `lo .. lo + width` of the register at `addr`. */
  datatype Lane = Lane(addr: nat, lo: nat, width: nat)

  predicate HasLane(fam: Family, i: nat) {
    i < MAX_INT_ID && (fam.Route? ==> i >= 32)
  }

  function LaneOf(g: Layout, fam: Family, i: nat): Lane {
    match fam
    case Group => Lane(g.Base(i) + 0x0080 + 4 * (i / 32), i % 32, 1)
    case Modifier => Lane(g.Base(i) + 0x0D00 + 4 * (i / 32), i % 32, 1)
    case Enable => Lane(g.Base(i) + 0x0100 + 4 * (i / 32), i % 32, 1)
    case Priority => Lane(g.Base(i) + 0x0400 + 4 * (i / 4), 8 * (i % 4), 8)
    case Route => Lane(g.dist + 0x6000 + 8 * i, 0, 64)
  }

  /** Bytes in a register of this family. */
  function Size(fam: Family): nat {
    if fam.Route? then 8 else 4
  }

  /** Offsets at which a family's registers begin and end. */
  function Start(fam: Family): nat {
    match fam
    case Group => 0x0080
    case Enable => 0x0100
    case Priority => 0x0400
    case Modifier => 0x0D00
    case Route => 0x6000
  }

  function End(fam: Family): nat {
    match fam
    case Group => 0x0100
    case Enable => 0x0180
    case Priority => 0x0800
    case Modifier => 0x0D80
    case Route => 0x8000
  }

  lemma InBlock(g: Layout, fam: Family, i: nat)
    requires HasLane(fam, i)
    ensures g.Base(i) + Start(fam) <= LaneOf(g, fam, i).addr
            && LaneOf(g, fam, i).addr + Size(fam) <= g.Base(i) + End(fam)
    ensures End(fam) <= 0x10000
  {
  }

  lemma SameFamily(g: Layout, fam: Family, i: nat, j: nat)
    requires HasLane(fam, i) && HasLane(fam, j) && i < j && g.Base(i) == g.Base(j)
    ensures var l, l' := LaneOf(g, fam, i), LaneOf(g, fam, j);
            l.addr + Size(fam) <= l'.addr || (l.addr == l'.addr && Disjoint(l.lo, l.width, l'.lo, l'.width))
  {
    match fam
    case Route =>
    case Priority =>
      assert i / 4 == j / 4 || i / 4 < j / 4;
      assert i == 4 * (i / 4) + i % 4 && j == 4 * (j / 4) + j % 4;
    case _ =>
      assert i / 32 == j / 32 || i / 32 < j / 32;
      assert i == 32 * (i / 32) + i % 32 && j == 32 * (j / 32) + j % 32;
  }

  lemma FamiliesApart(fam: Family, fam': Family)
    requires fam != fam'
    ensures End(fam) <= Start(fam') || End(fam') <= Start(fam)
  {
  }

  /** No two registers overlap, and no two lanes of one register do. */
  lemma LanesApart(g: Layout, fam: Family, i: nat, fam': Family, j: nat)
    requires g.Apart() && HasLane(fam, i) && HasLane(fam', j) && (fam != fam' || i != j)
    ensures var l, l' := LaneOf(g, fam, i), LaneOf(g, fam', j);
            || l.addr + Size(fam) <= l'.addr || l'.addr + Size(fam') <= l.addr
            || (l.addr == l'.addr && fam == fam' && Disjoint(l.lo, l.width, l'.lo, l'.width))
  {
    hide LaneOf, Start, End, Size;
    InBlock(g, fam, i);
    InBlock(g, fam', j);
    if g.Base(i) == g.Base(j) {
      if fam != fam' {
        FamiliesApart(fam, fam');
      } else if i < j {
        SameFamily(g, fam, i, j);
      } else {
        SameFamily(g, fam, j, i);
      }
    }
  }

  // ---- register contents

  type Registers = map<nat, nat>

  /** Registers read as zero after reset. */
  function Value(regs: Registers, addr: nat): nat {
    if addr in regs then regs[addr] else 0
  }

  function Get(regs: Registers, l: Lane): nat {
    Field(Value(regs, l.addr), l.lo, l.width)
  }

  function Put(regs: Registers, l: Lane, v: nat): Registers
    requires v < Pow2(l.width)
  {
    regs[l.addr := SetField(Value(regs, l.addr), l.lo, l.width, v)]
  }

  /** A lane written reads back; every other lane of every interrupt keeps its value. */
  lemma PutGet(g: Layout, regs: Registers, fam: Family, i: nat, v: nat, fam': Family, j: nat)
    requires g.Apart() && HasLane(fam, i) && HasLane(fam', j) && v < Pow2(LaneOf(g, fam, i).width)
    ensures Get(Put(regs, LaneOf(g, fam, i), v), LaneOf(g, fam', j)) ==
            if fam == fam' && i == j then v else Get(regs, LaneOf(g, fam', j))
  {
    hide LaneOf, Field, SetField, Pow2;
    var l, l' := LaneOf(g, fam, i), LaneOf(g, fam', j);
    if fam == fam' && i == j {
      GetSetSame(Value(regs, l.addr), l.lo, l.width, v);
    } else {
      LanesApart(g, fam, i, fam', j);
      if l.addr == l'.addr {
        GetSetOther(Value(regs, l.addr), l.lo, l.width, v, l'.lo, l'.width);
      }
    }
  }

  // ---- write-1-to-set and write-1-to-clear

  /** `old` with every bit that is 1 in `w` forced to `v`, over the low `n` bits. */
  function Masked(old': nat, w: nat, v: nat, n: nat): nat
    requires v < 2
  {
    if n == 0 then old'
    else
      var r := Masked(old', w, v, n - 1);
      Pow2Values();
      if Field(w, n - 1, 1) == 1 then SetField(r, n - 1, 1, v) else r
  }

  lemma Quotient(i: nat, k: nat)
    ensures Pow2(i) / Pow2(k) == if k <= i then Pow2(i - k) else 0
  {
    if k <= i {
      Pow2Add(k, i - k);
      DivModUnique(Pow2(i), Pow2(k), Pow2(i - k), 0);
    } else {
      Pow2Add(i, k - i);
      assert Pow2(k - i) == 2 * Pow2(k - i - 1);
      MulMono(2, Pow2(k - i), Pow2(i));
      DivModUnique(Pow2(i), Pow2(k), 0, Pow2(i));
    }
  }

  lemma BitIs(w: nat, k: nat)
    ensures Field(w, k, 1) == w / Pow2(k) % 2
  {
    Pow2Values();
  }

  lemma EvenPower(n: nat)
    ensures Pow2(n) % 2 == if n == 0 then 1 else 0
  {
    if n > 0 {
      DivModUnique(Pow2(n), 2, Pow2(n - 1), 0);
    }
  }

  lemma OneBit(i: nat, k: nat)
    ensures Field(Pow2(i), k, 1) == if k == i then 1 else 0
  {
    hide Field, Pow2;
    BitIs(Pow2(i), k);
    Quotient(i, k);
    if k <= i {
      EvenPower(i - k);
    }
  }

  /** Writing `1 << i` touches bit `i` alone. */
  lemma {:induction false} MaskedOne(old': nat, i: nat, v: nat, n: nat)
    requires v < 2
    ensures v < Pow2(1) && Masked(old', Pow2(i), v, n) == if i < n then SetField(old', i, 1, v) else old'
  {
    hide Field, SetField;
    Pow2Values();
    if n > 0 {
      MaskedOne(old', i, v, n - 1);
      OneBit(i, n - 1);
    }
  }

  /** Set-enable registers: a 1 written enables, a 0 does nothing. */
  predicate SetsEnable(g: Layout, addr: nat) {
    g.dist + 0x0100 <= addr < g.dist + 0x0180 || addr == g.SgiBase() + 0x0100
  }

  /** Clear-enable registers, 0x80 above: a 1 written disables. */
  predicate ClearsEnable(g: Layout, addr: nat) {
    g.dist + 0x0180 <= addr < g.dist + 0x0200 || addr == g.SgiBase() + 0x0180
  }

  /** What the device does with a write. */
  function Written(g: Layout, regs: Registers, addr: nat, w: nat): Registers {
    if SetsEnable(g, addr) then regs[addr := Masked(Value(regs, addr), w, 1, 32)]
    else if ClearsEnable(g, addr) then regs[addr - 0x80 := Masked(Value(regs, addr - 0x80), w, 0, 32)]
    else regs[addr := w]
  }

  lemma PlainWritten(g: Layout, regs: Registers, fam: Family, i: nat, w: nat)
    requires g.Apart() && HasLane(fam, i) && !fam.Enable?
    ensures Written(g, regs, LaneOf(g, fam, i).addr, w) == regs[LaneOf(g, fam, i).addr := w]
  {
  }

  lemma EnablePlaces(g: Layout, i: nat)
    requires g.Apart() && i < MAX_INT_ID
    ensures var a := LaneOf(g, Enable, i).addr;
            SetsEnable(g, a) && !SetsEnable(g, a + 0x80) && ClearsEnable(g, a + 0x80)
    ensures LaneOf(g, Enable, i).lo == i % 32 && LaneOf(g, Enable, i).width == 1 < Pow2(1)
  {
    Pow2Values();
  }

  /** `1 << (i % 32)` to a set-enable or clear-enable register sets or clears the interrupt's own bit. */
  lemma EnableWritten(g: Layout, regs: Registers, i: nat)
    requires g.Apart() && i < MAX_INT_ID
    ensures 1 < Pow2(LaneOf(g, Enable, i).width)
    ensures Written(g, regs, LaneOf(g, Enable, i).addr, Pow2(i % 32)) == Put(regs, LaneOf(g, Enable, i), 1)
    ensures Written(g, regs, LaneOf(g, Enable, i).addr + 0x80, Pow2(i % 32)) == Put(regs, LaneOf(g, Enable, i), 0)
  {
    Pow2Values();
    hide Masked, SetField, Field, LaneOf, SetsEnable, ClearsEnable, Pow2;
    EnablePlaces(g, i);
    var l := LaneOf(g, Enable, i);
    MaskedOne(Value(regs, l.addr), i % 32, 1, 32);
    MaskedOne(Value(regs, l.addr), i % 32, 0, 32);
  }

  // ---- what a call leaves behind

  datatype Setting = Setting(fam: Family, v: nat)

  ghost predicate Storable(g: Layout, i: nat, sets: seq<Setting>) {
    forall k: nat :: k < |sets| ==> HasLane(sets[k].fam, i) && sets[k].v < Pow2(LaneOf(g, sets[k].fam, i).width)
  }

  /** The registers after these settings of interrupt `i`, one after the other. */
  ghost function Puts(g: Layout, regs: Registers, i: nat, sets: seq<Setting>): Registers
    requires Storable(g, i, sets)
  {
    if sets == [] then regs
    else
      var n := |sets| - 1;
      Put(Puts(g, regs, i, sets[..n]), LaneOf(g, sets[n].fam, i), sets[n].v)
  }

  function LastOf(sets: seq<Setting>, fam: Family, v: nat): nat {
    if sets == [] then v
    else
      var n := |sets| - 1;
      if sets[n].fam == fam then sets[n].v else LastOf(sets[..n], fam, v)
  }

  lemma {:induction false} PutsGet(g: Layout, regs: Registers, i: nat, sets: seq<Setting>, fam: Family, j: nat)
    requires g.Apart() && i < MAX_INT_ID && Storable(g, i, sets) && HasLane(fam, j)
    ensures Get(Puts(g, regs, i, sets), LaneOf(g, fam, j)) ==
            if i == j then LastOf(sets, fam, Get(regs, LaneOf(g, fam, j))) else Get(regs, LaneOf(g, fam, j))
  {
    hide LaneOf, Get, Put, Pow2;
    if sets != [] {
      var n := |sets| - 1;
      PutsGet(g, regs, i, sets[..n], fam, j);
      PutGet(g, Puts(g, regs, i, sets[..n]), sets[n].fam, i, sets[n].v, fam, j);
    }
  }

  // ---- in numbers

  function BitAt(regs: Registers, addr: nat, k: nat): nat {
    Value(regs, addr) / Pow2(k) % 2
  }

  function ByteAt(regs: Registers, addr: nat, k: nat): nat {
    Value(regs, addr) / Pow2(8 * k) % 256
  }

  /** What the device's registers hold for interrupt `i`. SGIs and PPIs are configured in the SGI frame of this core's
    redistributor, 64 KB into its 128 KB, all others in the distributor. */
  ghost predicate Holds(g: Layout, regs: Registers, i: nat, group: nat, modifier: nat, priority: nat, enabled: nat,
                        route: nat)
  {
    var base := if i < 32 then g.redist + g.cpu * 0x20000 + 0x10000 else g.dist;
    && BitAt(regs, base + 0x80 + 4 * (i / 32), i % 32) == group
    && BitAt(regs, base + 0xD00 + 4 * (i / 32), i % 32) == modifier
    && ByteAt(regs, base + 0x400 + 4 * (i / 4), i % 4) == priority
    && BitAt(regs, base + 0x100 + 4 * (i / 32), i % 32) == enabled
    && (i >= 32 ==> Value(regs, g.dist + 0x6000 + 8 * i) == route)
  }

  /** A configuration is what the registers hold, in numbers. */
  lemma ConfigInNumbers(g: Layout, regs: Registers, table: seq<Handler>, i: nat)
    requires i < |table| && Narrow(regs)
    ensures var c := ConfigOf(g, regs, table, i);
            Holds(g, regs, i, c.group, c.modifier, c.priority, c.enabled, c.route) && c.handler == table[i]
  {
    hide Get, LaneOf, BitAt, ByteAt, Value, Layout.Base;
    BaseIs(g, i);
    GotBit(g, regs, Group, i);
    GotBit(g, regs, Modifier, i);
    GotBit(g, regs, Enable, i);
    GotByte(g, regs, i);
    GotRoute(g, regs, i);
  }

  lemma GotBit(g: Layout, regs: Registers, fam: Family, i: nat)
    requires fam.Group? || fam.Modifier? || fam.Enable?
    ensures var offset := if fam.Group? then 0x80 else if fam.Modifier? then 0xD00 else 0x100;
            Get(regs, LaneOf(g, fam, i)) == BitAt(regs, g.Base(i) + offset + 4 * (i / 32), i % 32)
  {
    BitIs(Value(regs, LaneOf(g, fam, i).addr), i % 32);
    hide Field, Pow2, Layout.Base;
  }

  lemma GotByte(g: Layout, regs: Registers, i: nat)
    ensures Get(regs, LaneOf(g, Priority, i)) == ByteAt(regs, g.Base(i) + 0x400 + 4 * (i / 4), i % 4)
  {
    ByteIs(Value(regs, LaneOf(g, Priority, i).addr), i % 4);
    hide Field, Pow2, Layout.Base;
  }

  lemma GotRoute(g: Layout, regs: Registers, i: nat)
    requires Narrow(regs)
    ensures Get(regs, LaneOf(g, Route, i)) == Value(regs, g.dist + 0x6000 + 8 * i)
  {
    Pow2Values();
    WholeIs(Value(regs, g.dist + 0x6000 + 8 * i), Pow2(64));
    hide Pow2;
  }

  lemma BaseIs(g: Layout, i: nat)
    ensures g.Base(i) == if i < 32 then g.redist + g.cpu * 0x20000 + 0x10000 else g.dist
  {
  }

  lemma ByteIs(w: nat, k: nat)
    ensures Field(w, 8 * k, 8) == w / Pow2(8 * k) % 256
  {
    Pow2Values();
  }

  lemma WholeIs(w: nat, n: nat)
    requires w < n
    ensures Pow2(0) == 1 && w / 1 == w && w % n == w
  {
  }

  /** The settings of an interrupt, in numbers. */
  lemma SettingsInNumbers(g: Layout, regs: Registers, r: Request, i: nat)
    requires g.Apart() && i < 1024 && r.Fits() && Storable(g, i, Settings(r, i))
             && Narrow(Puts(g, regs, i, Settings(r, i)))
    ensures var regs' := Puts(g, regs, i, Settings(r, i));
            match r
            case On(priority, route) => Holds(g, regs', i, 1, 0, priority, 1, route)
            case Off => Holds(g, regs', i, 0, 0, 0, 0, 0)
  {
    hide Puts, Storable, Settings, Narrow, Holds;
    var table := seq(1024, _ => NoHandler);
    SettingsTake(g, regs, table, r, i, NoHandler, i);
    ConfigInNumbers(g, Puts(g, regs, i, Settings(r, i)), table[i := NoHandler], i);
    RouteFree(g, Puts(g, regs, i, Settings(r, i)), i);
  }

  /** SGIs and PPIs have no route. */
  lemma RouteFree(g: Layout, regs: Registers, i: nat)
    ensures i < 32 ==> forall a, b, c, d, x, y ::
                         Holds(g, regs, i, a, b, c, d, x) ==> Holds(g, regs, i, a, b, c, d, y)
  {
  }

  /** `handler_data_t`: which handler, and its private data. */
  datatype Handler = NoHandler | Handler(code: nat, data: nat)

  /** The configuration of one interrupt, as the registers and the dispatch table hold it. */
  datatype Config = Config(group: nat, modifier: nat, priority: nat, enabled: nat, route: nat, handler: Handler)

  function ConfigOf(g: Layout, regs: Registers, table: seq<Handler>, i: nat): Config
    requires i < |table|
  {
    Config(Get(regs, LaneOf(g, Group, i)), Get(regs, LaneOf(g, Modifier, i)), Get(regs, LaneOf(g, Priority, i)),
           Get(regs, LaneOf(g, Enable, i)), if i < 32 then 0 else Get(regs, LaneOf(g, Route, i)), table[i])
  }

  const RESET: Config := Config(0, 0, 0, 0, 0, NoHandler)

  /** What a request asks for: on, with this priority and route, or off. */
  datatype Request = On(priority: nat, route: nat) | Off {
    predicate Fits() { On? ==> priority < 256 && route < Pow2(64) }
  }

  function Wanted(r: Request, i: nat, h: Handler): Config {
    match r
    case On(priority, route) => Config(1, 0, priority, 1, if i < 32 then 0 else route, h)
    case Off => RESET
  }

  /** In the order in which configure_sgi_ppi and configure_spi, or their opposites, write them. */
  function Settings(r: Request, i: nat): seq<Setting> {
    match r
    case On(priority, route) =>
      var sets := [Setting(Group, 1)] + [Setting(Modifier, 0)] + [Setting(Priority, priority)];
      (if i < 32 then sets else sets + [Setting(Route, route)]) + [Setting(Enable, 1)]
    case Off =>
      var sets := [Setting(Enable, 0)] + [Setting(Priority, 0)];
      (if i < 32 then sets else sets + [Setting(Route, 0)]) + [Setting(Group, 0)] + [Setting(Modifier, 0)]
  }

  lemma Fits(g: Layout, fam: Family, i: nat, v: nat)
    requires v < 2 || (fam.Priority? && v < 256) || (fam.Route? && v < Pow2(64))
    ensures v < Pow2(LaneOf(g, fam, i).width)
  {
    Pow2Values();
  }

  lemma SettingsStorable(g: Layout, r: Request, i: nat)
    requires i < MAX_INT_ID && r.Fits()
    ensures Storable(g, i, Settings(r, i))
  {
    hide LaneOf, Pow2;
    var sets := Settings(r, i);
    forall k: nat | k < |sets|
      ensures HasLane(sets[k].fam, i) && sets[k].v < Pow2(LaneOf(g, sets[k].fam, i).width)
    {
      Fits(g, sets[k].fam, i, sets[k].v);
    }
  }

  /** The settings of one interrupt make its configuration what was asked for, and leave all others alone. */
  lemma SettingsTake(g: Layout, regs: Registers, table: seq<Handler>, r: Request, i: nat, h: Handler, j: nat)
    requires g.Apart() && i < MAX_INT_ID == |table| && j < MAX_INT_ID && r.Fits() && (r.Off? ==> h == NoHandler)
    ensures Storable(g, i, Settings(r, i))
    ensures ConfigOf(g, Puts(g, regs, i, Settings(r, i)), table[i := h], j) ==
            if i != j then ConfigOf(g, regs, table, j) else Wanted(r, i, h)
  {
    hide Puts, Get, LaneOf, Storable, Settings;
    SettingsStorable(g, r, i);
    var sets := Settings(r, i);
    PutsGet(g, regs, i, sets, Group, j);
    PutsGet(g, regs, i, sets, Modifier, j);
    PutsGet(g, regs, i, sets, Priority, j);
    PutsGet(g, regs, i, sets, Enable, j);
    if j >= 32 {
      PutsGet(g, regs, i, sets, Route, j);
    }
    LastSettings(r, i);
  }

  lemma LastAppend(sets: seq<Setting>, x: Setting)
    ensures forall fam, v :: LastOf(sets + [x], fam, v) == if x.fam == fam then x.v else LastOf(sets, fam, v)
  {
    assert (sets + [x])[..|sets|] == sets;
  }

  lemma LastSettings(r: Request, i: nat)
    ensures var sets, c := Settings(r, i), Wanted(r, i, NoHandler);
            forall v ::
              && LastOf(sets, Group, v) == c.group && LastOf(sets, Modifier, v) == c.modifier
              && LastOf(sets, Priority, v) == c.priority && LastOf(sets, Enable, v) == c.enabled
              && (i >= 32 ==> LastOf(sets, Route, v) == c.route)
  {
    hide LastOf;
    match r
    case On(priority, route) =>
      var a := [Setting(Group, 1)];
      assert [] + a == a;
      LastAppend([], Setting(Group, 1));
      LastAppend(a, Setting(Modifier, 0));
      LastAppend(a + [Setting(Modifier, 0)], Setting(Priority, priority));
      var on3 := a + [Setting(Modifier, 0)] + [Setting(Priority, priority)];
      LastAppend(on3, Setting(Route, route));
      LastAppend(if i < 32 then on3 else on3 + [Setting(Route, route)], Setting(Enable, 1));
    case Off =>
      var b := [Setting(Enable, 0)];
      assert [] + b == b;
      LastAppend([], Setting(Enable, 0));
      LastAppend(b, Setting(Priority, 0));
      var off2 := b + [Setting(Priority, 0)];
      LastAppend(off2, Setting(Route, 0));
      var off3 := if i < 32 then off2 else off2 + [Setting(Route, 0)];
      LastAppend(off3, Setting(Group, 0));
      LastAppend(off3 + [Setting(Group, 0)], Setting(Modifier, 0));
  }

  lemma PutsNext(g: Layout, regs: Registers, i: nat, sets: seq<Setting>, x: Setting)
    requires Storable(g, i, sets + [x])
    ensures Storable(g, i, sets) && x.v < Pow2(LaneOf(g, x.fam, i).width)
    ensures Puts(g, regs, i, sets + [x]) == Put(Puts(g, regs, i, sets), LaneOf(g, x.fam, i), x.v)
  {
    hide LaneOf, Put, Pow2;
    var longer := sets + [x];
    assert longer[..|sets|] == sets && longer[|sets|] == x;
    assert forall k: nat :: k < |sets| ==> longer[k] == sets[k];
  }

  // ---- routing

  /** The value of GICD_IROUTER for the given affinities, with routing by affinity. */
  function RouteValue(aff0: nat, aff1: nat, aff2: nat, aff3: nat): nat {
    Pow2Values();
    var r := SetField(SetField(SetField(SetField(0, 0, 8, aff0 % 256), 8, 8, aff1 % 256), 16, 8, aff2 % 256), 32, 8,
                      aff3 % 256);
    SetField(r, 31, 1, 0)
  }

  lemma RouteFields(aff0: nat, aff1: nat, aff2: nat, aff3: nat)
    ensures var r := RouteValue(aff0, aff1, aff2, aff3);
            && Field(r, 0, 8) == aff0 % 256 && Field(r, 8, 8) == aff1 % 256 && Field(r, 16, 8) == aff2 % 256
            && Field(r, 32, 8) == aff3 % 256 && Field(r, 31, 1) == 0
  {
    Pow2Values();
    hide Field, SetField, Pow2;
    var r0 := SetField(0, 0, 8, aff0 % 256);
    var r1 := SetField(r0, 8, 8, aff1 % 256);
    var r2 := SetField(r1, 16, 8, aff2 % 256);
    var r3 := SetField(r2, 32, 8, aff3 % 256);
    FieldsAfter(0, 0, 8, aff0 % 256);
    FieldsAfter(r0, 8, 8, aff1 % 256);
    FieldsAfter(r1, 16, 8, aff2 % 256);
    FieldsAfter(r2, 32, 8, aff3 % 256);
    FieldsAfter(r3, 31, 1, 0);
  }

  /** The route as a number: the affinities in bytes 0, 1, 2 and 4, and nothing else. */
  lemma RouteInNumbers(aff0: nat, aff1: nat, aff2: nat, aff3: nat)
    ensures RouteValue(aff0, aff1, aff2, aff3) ==
            aff0 % 256 + aff1 % 256 * 0x100 + aff2 % 256 * 0x1_0000 + aff3 % 256 * 0x1_0000_0000
  {
    Pow2Values();
    RoutePlaces();
    hide Field, SetField, Pow2;
    var r0 := SetField(0, 0, 8, aff0 % 256);
    var r1 := SetField(r0, 8, 8, aff1 % 256);
    var r2 := SetField(r1, 16, 8, aff2 % 256);
    var r3 := SetField(r2, 32, 8, aff3 % 256);
    FieldsAfter(0, 0, 8, aff0 % 256);
    FieldsAfter(r0, 8, 8, aff1 % 256);
    FieldsAfter(r1, 16, 8, aff2 % 256);
    FieldsAfter(r2, 32, 8, aff3 % 256);
    SetFieldAdds(0, 0, 8, aff0 % 256);
    SetFieldAdds(r0, 8, 8, aff1 % 256);
    SetFieldAdds(r1, 16, 8, aff2 % 256);
    SetFieldAdds(r2, 32, 8, aff3 % 256);
    SetFieldAdds(r3, 31, 1, 0);
    ZeroFields(0, 8);
    ZeroFields(8, 8);
    ZeroFields(16, 8);
    ZeroFields(32, 8);
    ZeroFields(31, 1);
  }

  lemma RoutePlaces()
    ensures Pow2(0) == 1 && Pow2(8) == 0x100 && Pow2(16) == 0x1_0000 && Pow2(32) == 0x1_0000_0000
  {
    Pow2Values();
    Pow2Add(8, 8);
    Pow2Add(16, 16);
  }

  lemma NoRoute()
    ensures RouteValue(0, 0, 0, 0) == 0
  {
    Pow2Values();
    hide SetField, Pow2;
    ZeroStays(0, 8);
    ZeroStays(8, 8);
    ZeroStays(16, 8);
    ZeroStays(32, 8);
    ZeroStays(31, 1);
  }

  lemma ZeroStays(lo: nat, width: nat)
    ensures SetField(0, lo, width, 0) == 0
  {
  }

  /** No register is wider than 64 bits. */
  ghost predicate Narrow(regs: Registers) {
    forall a :: a in regs ==> regs[a] < Pow2(64)
  }

  lemma PutNarrow(g: Layout, regs: Registers, fam: Family, i: nat, v: nat)
    requires Narrow(regs) && v < Pow2(LaneOf(g, fam, i).width)
    ensures Narrow(Put(regs, LaneOf(g, fam, i), v))
  {
    hide SetField, Pow2;
    var l := LaneOf(g, fam, i);
    Pow2Values();
    SetFieldBound(Value(regs, l.addr), l.lo, l.width, v, 64);
  }

  /** A route is written whole. */
  lemma RouteWritten(g: Layout, regs: Registers, i: nat, v: nat)
    requires g.Apart() && 32 <= i < MAX_INT_ID && Narrow(regs) && v < Pow2(64)
    ensures Written(g, regs, LaneOf(g, Route, i).addr, v) == Put(regs, LaneOf(g, Route, i), v)
  {
    PlainWritten(g, regs, Route, i, v);
    Pow2Values();
    var w := Value(regs, LaneOf(g, Route, i).addr);
    DivModUnique(w, Pow2(64), 0, w);
  }

  lemma RouteNarrow(aff0: nat, aff1: nat, aff2: nat, aff3: nat)
    ensures RouteValue(aff0, aff1, aff2, aff3) < Pow2(64)
  {
    Pow2Values();
    hide Field, SetField, Pow2;
    var r0 := SetField(0, 0, 8, aff0 % 256);
    var r1 := SetField(r0, 8, 8, aff1 % 256);
    var r2 := SetField(r1, 16, 8, aff2 % 256);
    var r3 := SetField(r2, 32, 8, aff3 % 256);
    SetFieldBound(0, 0, 8, aff0 % 256, 64);
    SetFieldBound(r0, 8, 8, aff1 % 256, 64);
    SetFieldBound(r1, 16, 8, aff2 % 256, 64);
    SetFieldBound(r2, 32, 8, aff3 % 256, 64);
    SetFieldBound(r3, 31, 1, 0, 64);
  }

  /** The addresses the driver computes are those of the lanes. */
  lemma Addresses(g: Layout, i: nat)
    ensures i < 32 ==>
              && LaneOf(g, Enable, i).addr == g.SgiBase() + 0x0100 && i % 32 == i
              && LaneOf(g, Group, i) == Lane(g.SgiBase() + 0x0080, i, 1)
              && LaneOf(g, Modifier, i) == Lane(g.SgiBase() + 0x0D00, i, 1)
              && LaneOf(g, Priority, i) == Lane(g.SgiBase() + 0x0400 + 4 * (i / 4), 8 * (i % 4), 8)
    ensures i >= 32 ==>
              && LaneOf(g, Enable, i).addr == g.dist + 0x0100 + 4 * (i / 32)
              && LaneOf(g, Group, i) == Lane(g.dist + 0x0080 + 4 * (i / 32), i % 32, 1)
              && LaneOf(g, Modifier, i) == Lane(g.dist + 0x0D00 + 4 * (i / 32), i % 32, 1)
              && LaneOf(g, Priority, i) == Lane(g.dist + 0x0400 + 4 * (i / 4), 8 * (i % 4), 8)
    ensures LaneOf(g, Route, i).addr == g.dist + 0x6000 + 8 * i
  {
  }

  // ---- the driver

  class Controller {
    const g: Layout
    const dispatch: array<Handler>
    var regs: Registers

    ghost predicate Valid()
      reads this
    {
      g.Apart() && dispatch.Length == 1024 && Narrow(regs)
    }

    /** After reset: all registers read zero, no handler is set. */
    constructor (g: Layout)
      requires g.Apart()
      ensures Valid() && this.g == g && fresh(dispatch) && regs == map[]
      ensures forall i: nat :: i < MAX_INT_ID ==> dispatch[i] == NoHandler
    {
      this.g := g;
      dispatch := new Handler[MAX_INT_ID](_ => NoHandler);
      regs := map[];
    }

    method ReadReg(addr: nat) returns (w: nat)
      ensures w == Value(regs, addr)
    {
      w := Value(regs, addr);
    }

    method WriteReg(addr: nat, w: nat)
      modifies `regs
      ensures regs == Written(g, old(regs), addr, w)
    {
      regs := Written(g, regs, addr, w);
    }

    /** Read-modify-write of one lane of a plain register. */
    method Update(l: Lane, v: nat, ghost fam: Family, ghost i: nat)
      requires Valid() && HasLane(fam, i) && !fam.Enable? && l == LaneOf(g, fam, i) && v < Pow2(l.width)
      modifies `regs
      ensures Valid() && regs == Put(old(regs), LaneOf(g, fam, i), v)
    {
      hide LaneOf, Written, Narrow;
      PutNarrow(g, regs, fam, i, v);
      var w := ReadReg(l.addr);
      PlainWritten(g, regs, fam, i, SetField(w, l.lo, l.width, v));
      WriteReg(l.addr, SetField(w, l.lo, l.width, v));
    }

    /** enable_sgi_ppi (`on`) and disable_sgi_ppi: a write of `1 << intid` to GICR_ISENABLER0 or GICR_ICENABLER0. */
    method EnableSgiPpi(intid: nat, on: bool) returns (ok: bool)
      requires Valid()
      modifies `regs
      ensures Valid() && (ok <==> intid <= 31)
      ensures 1 < Pow2(LaneOf(g, Enable, intid).width)
      ensures regs == if ok then Put(old(regs), LaneOf(g, Enable, intid), if on then 1 else 0) else old(regs)
    {
      hide Written, Pow2, Narrow, Put, LaneOf;
      Fits(g, Enable, intid, 1);
      Addresses(g, intid);
      if intid > 31 {
        return false;
      }
      EnableWritten(g, regs, intid);
      PutNarrow(g, regs, Enable, intid, if on then 1 else 0);
      WriteReg(g.SgiBase() + (if on then 0x0100 else 0x0180), Pow2(intid));
      return true;
    }

    /** enable_spi and disable_spi: GICD_ISENABLER or GICD_ICENABLER. */
    method EnableSpi(intid: nat, on: bool) returns (ok: bool)
      requires Valid() && intid < MAX_INT_ID
      modifies `regs
      ensures Valid() && (ok <==> intid >= 32)
      ensures 1 < Pow2(LaneOf(g, Enable, intid).width)
      ensures regs == if ok then Put(old(regs), LaneOf(g, Enable, intid), if on then 1 else 0) else old(regs)
    {
      hide Written, Pow2, Narrow, Put, LaneOf;
      Fits(g, Enable, intid, 1);
      Addresses(g, intid);
      if intid < 32 {
        return false;
      }
      EnableWritten(g, regs, intid);
      PutNarrow(g, regs, Enable, intid, if on then 1 else 0);
      WriteReg(g.dist + (if on then 0x0100 else 0x0180) + 4 * (intid / 32), Pow2(intid % 32));
      return true;
    }

    /** set_sgi_ppi_group1_ns (1) and clear_sgi_ppi_group (0): the modifier bit is cleared either way. */
    method SetSgiPpiGroup(intid: nat, group: nat) returns (ok: bool)
      requires Valid() && group < 2
      modifies `regs
      ensures Valid() && (ok <==> intid <= 31)
      ensures group < Pow2(LaneOf(g, Group, intid).width) && 0 < Pow2(LaneOf(g, Modifier, intid).width)
      ensures regs == if ok then Put(Put(old(regs), LaneOf(g, Group, intid), group), LaneOf(g, Modifier, intid), 0)
              else old(regs)
    {
      hide Pow2, Narrow, Put, LaneOf;
      Fits(g, Group, intid, group);
      Fits(g, Modifier, intid, 0);
      Addresses(g, intid);
      if intid > 31 {
        return false;
      }
      Update(Lane(g.SgiBase() + 0x0080, intid, 1), group, Group, intid);
      Update(Lane(g.SgiBase() + 0x0D00, intid, 1), 0, Modifier, intid);
      return true;
    }

    /** set_spi_group1_ns (1) and clear_spi_group (0). */
    method SetSpiGroup(intid: nat, group: nat) returns (ok: bool)
      requires Valid() && group < 2 && intid < MAX_INT_ID
      modifies `regs
      ensures Valid() && (ok <==> intid >= 32)
      ensures group < Pow2(LaneOf(g, Group, intid).width) && 0 < Pow2(LaneOf(g, Modifier, intid).width)
      ensures regs == if ok then Put(Put(old(regs), LaneOf(g, Group, intid), group), LaneOf(g, Modifier, intid), 0)
              else old(regs)
    {
      hide Pow2, Narrow, Put, LaneOf;
      Fits(g, Group, intid, group);
      Fits(g, Modifier, intid, 0);
      Addresses(g, intid);
      if intid < 32 {
        return false;
      }
      var regIdx, bitIdx := intid / 32, intid % 32;
      Update(Lane(g.dist + 0x0080 + 4 * regIdx, bitIdx, 1), group, Group, intid);
      Update(Lane(g.dist + 0x0D00 + 4 * regIdx, bitIdx, 1), 0, Modifier, intid);
      return true;
    }

    /** set_sgi_ppi_priority; clear_sgi_ppi_priority is priority 0. */
    method SetSgiPpiPriority(intid: nat, priority: nat) returns (ok: bool)
      requires Valid() && priority < 256
      modifies `regs
      ensures Valid() && (ok <==> intid <= 31)
      ensures priority < Pow2(LaneOf(g, Priority, intid).width)
      ensures regs == if ok then Put(old(regs), LaneOf(g, Priority, intid), priority) else old(regs)
    {
      hide Pow2, Narrow, Put, LaneOf;
      Fits(g, Priority, intid, priority);
      Addresses(g, intid);
      if intid > 31 {
        return false;
      }
      Update(Lane(g.SgiBase() + 0x0400 + 4 * (intid / 4), 8 * (intid % 4), 8), priority, Priority, intid);
      return true;
    }

    /** set_spi_priority; clear_spi_priority is priority 0. */
    method SetSpiPriority(intid: nat, priority: nat) returns (ok: bool)
      requires Valid() && priority < 256 && intid < MAX_INT_ID
      modifies `regs
      ensures Valid() && (ok <==> intid >= 32)
      ensures priority < Pow2(LaneOf(g, Priority, intid).width)
      ensures regs == if ok then Put(old(regs), LaneOf(g, Priority, intid), priority) else old(regs)
    {
      hide Pow2, Narrow, Put, LaneOf;
      Fits(g, Priority, intid, priority);
      Addresses(g, intid);
      if intid < 32 {
        return false;
      }
      Update(Lane(g.dist + 0x0400 + 4 * (intid / 4), 8 * (intid % 4), 8), priority, Priority, intid);
      return true;
    }

    /** The write of set_spi_route and clear_spi_route to GICD_IROUTER. */
    method SetSpiRoute(intid: nat, route: nat) returns (ok: bool)
      requires Valid() && intid < MAX_INT_ID && route < Pow2(64)
      modifies `regs
      ensures Valid() && (ok <==> intid >= 32)
      ensures route < Pow2(LaneOf(g, Route, intid).width)
      ensures regs == if ok then Put(old(regs), LaneOf(g, Route, intid), route) else old(regs)
    {
      hide Pow2, Narrow, Put, LaneOf, Written;
      Fits(g, Route, intid, route);
      Addresses(g, intid);
      if intid < 32 {
        return false;
      }
      RouteWritten(g, regs, intid, route);
      PutNarrow(g, regs, Route, intid, route);
      WriteReg(g.dist + 0x6000 + 8 * intid, route);
      return true;
    }

    /** The registers hold what `old` ones hold after these settings. */
    ghost predicate Applied(regs0: Registers, r: Request, i: nat)
      reads this
    {
      Storable(g, i, Settings(r, i)) && regs == Puts(g, regs0, i, Settings(r, i))
    }

    /** configure_sgi_ppi */
    method ConfigureSgiPpi(intid: nat, priority: nat) returns (ok: bool)
      requires Valid() && priority < 256
      modifies `regs
      ensures Valid() && (ok <==> intid <= 31)
      ensures if ok then Applied(old(regs), On(priority, 0), intid) else regs == old(regs)
      ensures ok ==> Holds(g, regs, intid, 1, 0, priority, 1, 0)
    {
      hide Pow2, Narrow, Put, LaneOf, Puts, Storable, Holds;
      ghost var regs0 := regs;
      ok := SetSgiPpiGroup(intid, 1);
      if !ok {
        return;
      }
      ok := SetSgiPpiPriority(intid, priority);
      if !ok {
        return;
      }
      ok := EnableSgiPpi(intid, true);
      SettingsStorable(g, On(priority, 0), intid);
      ghost var a := [Setting(Group, 1)];
      ghost var b := a + [Setting(Modifier, 0)];
      PutsNext(g, regs0, intid, b + [Setting(Priority, priority)], Setting(Enable, 1));
      PutsNext(g, regs0, intid, b, Setting(Priority, priority));
      PutsNext(g, regs0, intid, a, Setting(Modifier, 0));
      FirstPut(g, regs0, intid, Setting(Group, 1));
      SettingsInNumbers(g, regs0, On(priority, 0), intid);
    }

    /** configure_spi */
    method ConfigureSpi(intid: nat, priority: nat, aff0: nat, aff1: nat, aff2: nat, aff3: nat) returns (ok: bool)
      requires Valid() && priority < 256 && intid < MAX_INT_ID
      modifies `regs
      ensures Valid() && (ok <==> intid >= 32)
      ensures if ok then Applied(old(regs), On(priority, RouteValue(aff0, aff1, aff2, aff3)), intid)
              else regs == old(regs)
      ensures ok ==> Holds(g, regs, intid, 1, 0, priority, 1,
                           aff0 % 256 + aff1 % 256 * 0x100 + aff2 % 256 * 0x1_0000 + aff3 % 256 * 0x1_0000_0000)
    {
      hide Pow2, Narrow, Put, LaneOf, Puts, Storable, RouteValue, Holds;
      ghost var regs0 := regs;
      ok := SetSpiGroup(intid, 1);
      if !ok {
        return;
      }
      ok := SetSpiPriority(intid, priority);
      if !ok {
        return;
      }
      var route := RouteValue(aff0, aff1, aff2, aff3);
      RouteNarrow(aff0, aff1, aff2, aff3);
      ok := SetSpiRoute(intid, route);
      if !ok {
        return;
      }
      ok := EnableSpi(intid, true);
      SettingsStorable(g, On(priority, route), intid);
      ghost var a := [Setting(Group, 1)];
      ghost var b := a + [Setting(Modifier, 0)];
      ghost var c := b + [Setting(Priority, priority)];
      PutsNext(g, regs0, intid, c + [Setting(Route, route)], Setting(Enable, 1));
      PutsNext(g, regs0, intid, c, Setting(Route, route));
      PutsNext(g, regs0, intid, b, Setting(Priority, priority));
      PutsNext(g, regs0, intid, a, Setting(Modifier, 0));
      FirstPut(g, regs0, intid, Setting(Group, 1));
      SettingsInNumbers(g, regs0, On(priority, route), intid);
      RouteInNumbers(aff0, aff1, aff2, aff3);
    }

    /** unconfigure_sgi_ppi */
    method UnconfigureSgiPpi(intid: nat) returns (ok: bool)
      requires Valid()
      modifies `regs
      ensures Valid() && (ok <==> intid <= 31)
      ensures if ok then Applied(old(regs), Off, intid) else regs == old(regs)
      ensures ok ==> Holds(g, regs, intid, 0, 0, 0, 0, 0)
    {
      hide Pow2, Narrow, Put, LaneOf, Puts, Storable, Holds;
      ghost var regs0 := regs;
      ok := EnableSgiPpi(intid, false);
      if !ok {
        return;
      }
      ok := SetSgiPpiPriority(intid, 0);
      if !ok {
        return;
      }
      ok := SetSgiPpiGroup(intid, 0);
      SettingsStorable(g, Off, intid);
      ghost var a := [Setting(Enable, 0)];
      ghost var b := a + [Setting(Priority, 0)];
      PutsNext(g, regs0, intid, b + [Setting(Group, 0)], Setting(Modifier, 0));
      PutsNext(g, regs0, intid, b, Setting(Group, 0));
      PutsNext(g, regs0, intid, a, Setting(Priority, 0));
      FirstPut(g, regs0, intid, Setting(Enable, 0));
      SettingsInNumbers(g, regs0, Off, intid);
    }

    /** unconfigure_spi */
    method UnconfigureSpi(intid: nat) returns (ok: bool)
      requires Valid() && intid < MAX_INT_ID
      modifies `regs
      ensures Valid() && (ok <==> intid >= 32)
      ensures if ok then Applied(old(regs), Off, intid) else regs == old(regs)
      ensures ok ==> Holds(g, regs, intid, 0, 0, 0, 0, 0)
    {
      hide Pow2, Narrow, Put, LaneOf, Puts, Storable, Holds;
      ghost var regs0 := regs;
      ok := EnableSpi(intid, false);
      if !ok {
        return;
      }
      ok := SetSpiPriority(intid, 0);
      if !ok {
        return;
      }
      ok := SetSpiRoute(intid, 0);
      if !ok {
        return;
      }
      ok := SetSpiGroup(intid, 0);
      SettingsStorable(g, Off, intid);
      ghost var a := [Setting(Enable, 0)];
      ghost var b := a + [Setting(Priority, 0)];
      ghost var c := b + [Setting(Route, 0)];
      PutsNext(g, regs0, intid, c + [Setting(Group, 0)], Setting(Modifier, 0));
      PutsNext(g, regs0, intid, c, Setting(Group, 0));
      PutsNext(g, regs0, intid, b, Setting(Route, 0));
      PutsNext(g, regs0, intid, a, Setting(Priority, 0));
      FirstPut(g, regs0, intid, Setting(Enable, 0));
      SettingsInNumbers(g, regs0, Off, intid);
    }

    ghost function Now(i: nat): Config
      reads this, dispatch
      requires i < dispatch.Length
    {
      ConfigOf(g, regs, dispatch[..], i)
    }

    /** gicv3_register_irq. A handler already there is replaced. */
    method RegisterIrq(irq: nat, h: Handler) returns (ok: bool)
      requires Valid()
      modifies `regs, dispatch
      ensures Valid() && (ok <==> irq < 1024)
      ensures ok ==> Holds(g, regs, irq, 1, 0, 0xA0, 1, 0) && dispatch[irq] == h
      ensures !ok ==> regs == old(regs) && dispatch[..] == old(dispatch[..])
      ensures ok ==> forall j: nat :: j < MAX_INT_ID ==>
                                   Now(j) == if j == irq then Wanted(On(DEFAULT_PRIORITY, 0), irq, h) else old(Now(j))
    {
      hide Narrow, Puts, Storable, Settings, ConfigOf, RouteValue, Holds;
      if irq >= MAX_INT_ID {
        return false;
      }
      ghost var regs0, table0 := regs, dispatch[..];
      if irq < 32 {
        ok := ConfigureSgiPpi(irq, DEFAULT_PRIORITY);
        if !ok {
          return false;
        }
      } else {
        NoRoute();
        ok := ConfigureSpi(irq, DEFAULT_PRIORITY, 0, 0, 0, 0);
        if !ok {
          return false;
        }
      }
      dispatch[irq] := h;
      assert dispatch[..] == table0[irq := h];
      forall j: nat | j < MAX_INT_ID
        ensures Now(j) == if j == irq then Wanted(On(DEFAULT_PRIORITY, 0), irq, h) else ConfigOf(g, regs0, table0, j)
      {
        Pow2Values();
        SettingsTake(g, regs0, table0, On(DEFAULT_PRIORITY, 0), irq, h, j);
      }
      return true;
    }

    /** gicv3_unregister_irq */
    method UnregisterIrq(irq: nat)
      requires Valid()
      modifies `regs, dispatch
      ensures Valid()
      ensures irq >= 1024 ==> regs == old(regs) && dispatch[..] == old(dispatch[..])
      ensures irq < 1024 ==> Holds(g, regs, irq, 0, 0, 0, 0, 0) && dispatch[irq] == NoHandler
      ensures irq < MAX_INT_ID ==> forall j: nat :: j < MAX_INT_ID ==> Now(j) == if j == irq then RESET else old(Now(j))
    {
      hide Narrow, Puts, Storable, Settings, ConfigOf, Holds;
      if irq >= MAX_INT_ID {
        return;
      }
      ghost var regs0, table0 := regs, dispatch[..];
      var ok;
      if irq < 32 {
        ok := UnconfigureSgiPpi(irq);
      } else {
        ok := UnconfigureSpi(irq);
      }
      dispatch[irq] := NoHandler;
      assert dispatch[..] == table0[irq := NoHandler];
      forall j: nat | j < MAX_INT_ID
        ensures Now(j) == if j == irq then RESET else ConfigOf(g, regs0, table0, j)
      {
        SettingsTake(g, regs0, table0, Off, irq, NoHandler, j);
      }
    }

    /** Any run of register and unregister calls: every interrupt is configured as its last call left it. */
    method RunCalls(calls: seq<Call>)
      requires Valid()
      modifies `regs, dispatch
      ensures Valid()
      ensures forall j: nat :: j < MAX_INT_ID ==> Now(j) == AfterLast(calls, j, old(Now(j)))
      ensures forall k: nat :: k < |calls| && LastAbout(calls, k) ==>
                            if calls[k].Register?
                            then Holds(g, regs, calls[k].irq, 1, 0, 0xA0, 1, 0)
                              && dispatch[calls[k].irq] == calls[k].handler
                            else Holds(g, regs, calls[k].irq, 0, 0, 0, 0, 0) && dispatch[calls[k].irq] == NoHandler
    {
      hide Narrow, ConfigOf, AfterLast, Holds;
      ghost var regs0, table0 := regs, dispatch[..];
      forall j: nat | j < MAX_INT_ID
        ensures Now(j) == AfterLast(calls[..0], j, ConfigOf(g, regs0, table0, j))
      {
        NoCalls(j, Now(j));
      }
      var i := 0;
      while i < |calls|
        invariant i <= |calls| && Valid()
        invariant forall j: nat :: j < MAX_INT_ID ==> Now(j) == AfterLast(calls[..i], j, ConfigOf(g, regs0, table0, j))
      {
        ghost var regs1, table1 := regs, dispatch[..];
        match calls[i] {
          case Register(irq, h) => var ok := RegisterIrq(irq, h);
          case Unregister(irq) => UnregisterIrq(irq);
        }
        forall j: nat | j < MAX_INT_ID
          ensures Now(j) == AfterLast(calls[..i + 1], j, ConfigOf(g, regs0, table0, j))
        {
          OneCall(calls, i, j, ConfigOf(g, regs0, table0, j));
        }
        i := i + 1;
      }
      assert calls[..i] == calls;
      forall k: nat | k < |calls| && LastAbout(calls, k)
        ensures if calls[k].Register?
                then Holds(g, regs, calls[k].irq, 1, 0, 0xA0, 1, 0) && dispatch[calls[k].irq] == calls[k].handler
                else Holds(g, regs, calls[k].irq, 0, 0, 0, 0, 0) && dispatch[calls[k].irq] == NoHandler
      {
        var j := calls[k].irq;
        LastCallDecides(calls, k, j, ConfigOf(g, regs0, table0, j));
        ConfigInNumbers(g, regs, dispatch[..], j);
        RouteFree(g, regs, j);
      }
    }
  }

  /** Call `k` is the last one about its interrupt, which exists. */
  ghost predicate LastAbout(calls: seq<Call>, k: nat)
    requires k < |calls|
  {
    calls[k].irq < 1024 && forall l: nat :: k < l < |calls| ==> calls[l].irq != calls[k].irq
  }

  datatype Call = Register(irq: nat, handler: Handler) | Unregister(irq: nat)

  /** The configuration of interrupt `j` by the last of the calls that is about it. */
  function AfterLast(calls: seq<Call>, j: nat, c: Config): Config {
    if calls == [] then c
    else
      var n := |calls| - 1;
      if calls[n].irq != j then AfterLast(calls[..n], j, c)
      else if calls[n].Register? then Wanted(On(DEFAULT_PRIORITY, 0), j, calls[n].handler)
      else RESET
  }

  /** Calls before the last one about an interrupt, and calls about others, do not matter to it. */
  lemma {:induction false} LastCallDecides(calls: seq<Call>, k: nat, j: nat, c: Config)
    requires k < |calls| && calls[k].irq == j && forall l: nat :: k < l < |calls| ==> calls[l].irq != j
    ensures AfterLast(calls, j, c) ==
            if calls[k].Register? then Wanted(On(DEFAULT_PRIORITY, 0), j, calls[k].handler) else RESET
  {
    if k < |calls| - 1 {
      LastCallDecides(calls[..|calls| - 1], k, j, c);
    }
  }

  lemma NoCalls(j: nat, c: Config)
    ensures AfterLast([], j, c) == c
  {
  }

  lemma OneCall(calls: seq<Call>, i: nat, j: nat, c: Config)
    requires i < |calls|
    ensures AfterLast(calls[..i + 1], j, c) ==
            if calls[i].irq != j then AfterLast(calls[..i], j, c)
            else if calls[i].Register? then Wanted(On(DEFAULT_PRIORITY, 0), j, calls[i].handler)
            else RESET
  {
    assert calls[..i + 1][..i] == calls[..i];
  }

  lemma FirstPut(g: Layout, regs: Registers, i: nat, x: Setting)
    requires Storable(g, i, [x])
    ensures x.v < Pow2(LaneOf(g, x.fam, i).width) && Puts(g, regs, i, [x]) == Put(regs, LaneOf(g, x.fam, i), x.v)
  {
    assert [] + [x] == [x];
    PutsNext(g, regs, i, [], x);
  }

  /** From reset nothing is configured; so an interrupt never registered, or unregistered last, is as after reset. */
  lemma AtReset(g: Layout, table: seq<Handler>, i: nat)
    requires i < |table| && table[i] == NoHandler
    ensures ConfigOf(g, map[], table, i) == RESET
  {
    Pow2Values();
    ZeroFields(i % 32, 1);
    ZeroFields(8 * (i % 4), 8);
    ZeroFields(0, 64);
  }
}
