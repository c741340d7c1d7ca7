/** Stage 1 translation table descriptors (4 KiB granule), as bit fields of a 64-bit word. */
module Descriptors {
  import opened Bits
  import opened Memory

  /** `page_permissions_t` */
  datatype Permissions = Permissions(read: bool, write: bool, execute: bool, user: bool)

  datatype MemType = DEVICE | NORMAL

  predicate Valid(e: Word) { Field(e, 0, 1) == 1 }

  /** Bit 1: a table at levels 0 to 2, a page at level 3. */
  predicate TableOrPage(e: Word) { Field(e, 1, 1) == 1 }

  function ApTable(e: Word): nat { Field(e, 61, 2) }

  function XnTable(e: Word): nat { Field(e, 60, 1) }

  function PxnTable(e: Word): nat { Field(e, 59, 1) }

  /** Next-level table address in pages: bits [47:12], [49:48] and [51:50] (kept in bits [9:8]). */
  function TableFrame(e: Word): nat {
    Field(e, 12, 36) + Field(e, 48, 2) * 0x10_0000_0000 + Field(e, 8, 2) * 0x40_0000_0000
  }

  function AttrIndex(e: Word): nat { Field(e, 2, 3) }

  function Ap(e: Word): nat { Field(e, 6, 2) }

  function Shareability(e: Word): nat { Field(e, 8, 2) }

  function AccessFlag(e: Word): nat { Field(e, 10, 1) }

  function Pxn(e: Word): nat { Field(e, 53, 1) }

  function Xn(e: Word): nat { Field(e, 54, 1) }

  /** Output address of a page descriptor: bits [47:12] and [49:48]; there are no more. */
  function OutputAddress(e: Word): nat {
    Field(e, 12, 36) * PAGE_SIZE + Field(e, 48, 2) * 0x1_0000_0000_0000
  }

  /** Assignment to a bit-field, which truncates. */
  function Assign(e: Word, lo: nat, width: nat, v: nat): (r: Word)
    requires lo + width <= 64
  {
    var low := v % Pow2(width);
    Pow2Values();
    SetFieldBound(e, lo, width, low, 64);
    SetField(e, lo, width, low)
  }

  lemma Assigned(e: Word, lo: nat, width: nat, v: nat)
    requires lo + width <= 64
    ensures Field(Assign(e, lo, width, v), lo, width) == v % Pow2(width)
    ensures forall lo': nat, width': nat {:trigger Field(Assign(e, lo, width, v), lo', width')} ::
              Disjoint(lo, width, lo', width') ==>
                Field(Assign(e, lo, width, v), lo', width') == Field(e, lo', width')
  {
    FieldsAfter(e, lo, width, v % Pow2(width));
  }

  /** What an assignment adds to the word, and takes away from it. */
  lemma AssignAdds(e: Word, lo: nat, width: nat, v: nat)
    requires lo + width <= 64
    ensures Assign(e, lo, width, v) + Field(e, lo, width) * Pow2(lo) == e + v % Pow2(width) * Pow2(lo)
  {
    SetFieldAdds(e, lo, width, v % Pow2(width));
  }

  /** Where each part of a descriptor lies. */
  lemma PartsInNumbers(e: Word)
    ensures Valid(e) <==> e % 2 == 1
    ensures TableOrPage(e) <==> e / 2 % 2 == 1
    ensures AttrIndex(e) == e / 4 % 8 && Ap(e) == e / 0x40 % 4 && Shareability(e) == e / 0x100 % 4
    ensures AccessFlag(e) == e / 0x400 % 2
    ensures Pxn(e) == e / 0x20_0000_0000_0000 % 2 && Xn(e) == e / 0x40_0000_0000_0000 % 2
    ensures OutputAddress(e) == e / 0x1000 % 0x40_0000_0000 * 0x1000
    ensures TableFrame(e) == e / 0x1000 % 0x40_0000_0000 + e / 0x100 % 4 * 0x40_0000_0000
    ensures PxnTable(e) == e / 0x800_0000_0000_0000 % 2 && XnTable(e) == e / 0x1000_0000_0000_0000 % 2
    ensures ApTable(e) == e / 0x2000_0000_0000_0000 % 4
  {
    Pow2Values();
    Places();
    hide Pow2;
    var f := e / 0x1000;
    assert e / 0x1_0000_0000_0000 == f / 0x10_0000_0000;
    assert f % 0x40_0000_0000 == f % 0x10_0000_0000 + f / 0x10_0000_0000 % 4 * 0x10_0000_0000;
  }

  lemma Places()
    ensures Pow2(0) == 1 && Pow2(1) == 2 && Pow2(2) == 4 && Pow2(3) == 8 && Pow2(6) == 0x40 && Pow2(8) == 0x100
    ensures Pow2(10) == 0x400 && Pow2(12) == 0x1000 && Pow2(36) == 0x10_0000_0000
    ensures Pow2(48) == 0x1_0000_0000_0000 && Pow2(53) == 0x20_0000_0000_0000 && Pow2(54) == 0x40_0000_0000_0000
    ensures Pow2(59) == 0x800_0000_0000_0000 && Pow2(60) == 0x1000_0000_0000_0000
    ensures Pow2(61) == 0x2000_0000_0000_0000
  {
    Pow2Values();
    assert Pow2(10) == 0x400 && Pow2(12) == 0x1000;
    Pow2Add(36, 12);
    hide Pow2;
    assert Pow2(48) == 0x1_0000_0000_0000;
    Pow2Add(48, 5);
    Pow2Add(48, 6);
    Pow2Add(48, 11);
    Pow2Add(48, 12);
    Pow2Add(48, 13);
    SmallPlaces();
  }

  lemma SmallPlaces()
    ensures Pow2(5) == 32 && Pow2(6) == 64 && Pow2(11) == 2048 && Pow2(12) == 4096 && Pow2(13) == 8192 && Pow2(0) == 1
  {
  }

  // ---- table descriptors

  /** set_next_level_table */
  function TableDescriptor(pa: nat): Word {
    var e := Assign(Assign(0, 0, 1, 1), 1, 1, 1);
    Assign(Assign(Assign(e, 12, 36, pa / 0x1000), 48, 2, pa / 0x1_0000_0000_0000), 8, 2, pa / 0x4_0000_0000_0000)
  }

  /** A table descriptor names its table and restricts nothing. */
  lemma TableDescriptorFields(pa: nat)
    requires pa % PAGE_SIZE == 0 && pa < 0x10_0000_0000_0000
    ensures var e := TableDescriptor(pa);
            && Valid(e) && TableOrPage(e) && TableFrame(e) == pa / PAGE_SIZE
            && ApTable(e) == 0 && XnTable(e) == 0 && PxnTable(e) == 0
  {
    hide Field, Assign, Pow2;
    var e1 := Assign(0, 0, 1, 1);
    var e2 := Assign(e1, 1, 1, 1);
    var e3 := Assign(e2, 12, 36, pa / 0x1000);
    var e4 := Assign(e3, 48, 2, pa / 0x1_0000_0000_0000);
    Assigned(0, 0, 1, 1);
    Assigned(e1, 1, 1, 1);
    Assigned(e2, 12, 36, pa / 0x1000);
    Assigned(e3, 48, 2, pa / 0x1_0000_0000_0000);
    Assigned(e4, 8, 2, pa / 0x4_0000_0000_0000);
    ZeroFields(61, 2);
    ZeroFields(60, 1);
    ZeroFields(59, 1);
    Pow2Values();
    AddressParts52(pa / PAGE_SIZE, pa);
  }

  /** A table descriptor as a number. */
  lemma TableInNumbers(pa: nat)
    requires pa % 0x1000 == 0
    ensures TableDescriptor(pa) == pa % 0x4_0000_0000_0000 + pa / 0x4_0000_0000_0000 % 4 * 0x100 + 3
    ensures pa < 0x1_0000_0000_0000 ==> TableDescriptor(pa) == pa + 3
  {
    Pow2Values();
    Places();
    hide Field, Assign, Pow2;
    var e1 := Assign(0, 0, 1, 1);
    var e2 := Assign(e1, 1, 1, 1);
    var e3 := Assign(e2, 12, 36, pa / 0x1000);
    var e4 := Assign(e3, 48, 2, pa / 0x1_0000_0000_0000);
    Assigned(0, 0, 1, 1);
    Assigned(e1, 1, 1, 1);
    Assigned(e2, 12, 36, pa / 0x1000);
    Assigned(e3, 48, 2, pa / 0x1_0000_0000_0000);
    AssignAdds(0, 0, 1, 1);
    AssignAdds(e1, 1, 1, 1);
    AssignAdds(e2, 12, 36, pa / 0x1000);
    AssignAdds(e3, 48, 2, pa / 0x1_0000_0000_0000);
    AssignAdds(e4, 8, 2, pa / 0x4_0000_0000_0000);
    ZeroFields(0, 1);
    ZeroFields(1, 1);
    ZeroFields(12, 36);
    ZeroFields(48, 2);
    ZeroFields(8, 2);
    AddressParts50(pa / 0x1000, pa);
  }

  lemma AddressParts52(f: nat, pa: nat)
    requires pa == f * PAGE_SIZE && pa < 0x10_0000_0000_0000
    ensures pa / 0x1000 == f
    ensures pa / 0x1000 % 0x10_0000_0000 + pa / 0x1_0000_0000_0000 % 4 * 0x10_0000_0000
            + pa / 0x4_0000_0000_0000 % 4 * 0x40_0000_0000 == f
  {
    assert pa / 0x1_0000_0000_0000 == f / 0x10_0000_0000;
    assert pa / 0x4_0000_0000_0000 == f / 0x40_0000_0000;
  }

  // ---- page descriptors

  function ApBits(perms: Permissions): nat {
    if perms.write then (if perms.user then 1 else 0) else (if perms.user then 3 else 2)
  }

  /** The leaf written by map_page; without read permission it is left invalid. */
  function PageDescriptor(pa: nat, perms: Permissions, memType: MemType): Word {
    var e := Assign(Assign(0, 0, 1, 1), 1, 1, 1);
    var e := Assign(Assign(e, 12, 36, pa / 0x1000), 48, 2, pa / 0x1_0000_0000_0000);
    var never := if perms.execute then 0 else 1;
    var e := Assign(Assign(e, 54, 1, never), 53, 1, never);
    var e := if !perms.read then Assign(e, 0, 1, 0) else Assign(e, 6, 2, ApBits(perms));
    var e := Assign(e, 10, 1, 1);
    if memType.DEVICE? then Assign(Assign(e, 2, 3, 0), 8, 2, 0) else Assign(Assign(e, 2, 3, 1), 8, 2, 3)
  }

  /** What the leaf says: the address modulo 2^50 and exactly the requested attributes. */
  lemma PageDescriptorFields(pa: nat, perms: Permissions, memType: MemType)
    requires pa % PAGE_SIZE == 0
    ensures var e := PageDescriptor(pa, perms, memType);
            && Valid(e) == perms.read && TableOrPage(e)
            && OutputAddress(e) == pa % 0x4_0000_0000_0000
            && Ap(e) == (if perms.read then ApBits(perms) else 0)
            && (Xn(e) == 1 <==> !perms.execute) && (Pxn(e) == 1 <==> !perms.execute)
            && AccessFlag(e) == 1
            && AttrIndex(e) == (if memType.DEVICE? then 0 else 1)
            && Shareability(e) == (if memType.DEVICE? then 0 else 3)
  {
    hide Field, Assign, Pow2;
    var never := if perms.execute then 0 else 1;
    var e1 := Assign(0, 0, 1, 1);
    var e2 := Assign(e1, 1, 1, 1);
    var e3 := Assign(e2, 12, 36, pa / 0x1000);
    var e4 := Assign(e3, 48, 2, pa / 0x1_0000_0000_0000);
    var e5 := Assign(e4, 54, 1, never);
    var e6 := Assign(e5, 53, 1, never);
    var e7 := if !perms.read then Assign(e6, 0, 1, 0) else Assign(e6, 6, 2, ApBits(perms));
    var e8 := Assign(e7, 10, 1, 1);
    var attr, sh := if memType.DEVICE? then 0 else 1, if memType.DEVICE? then 0 else 3;
    var e9 := Assign(e8, 2, 3, attr);
    Assigned(0, 0, 1, 1);
    Assigned(e1, 1, 1, 1);
    Assigned(e2, 12, 36, pa / 0x1000);
    Assigned(e3, 48, 2, pa / 0x1_0000_0000_0000);
    Assigned(e4, 54, 1, never);
    Assigned(e5, 53, 1, never);
    Assigned(e6, 0, 1, 0);
    Assigned(e6, 6, 2, ApBits(perms));
    Assigned(e7, 10, 1, 1);
    Assigned(e8, 2, 3, attr);
    Assigned(e9, 8, 2, sh);
    ZeroFields(6, 2);
    Pow2Values();
    AddressParts50(pa / PAGE_SIZE, pa);
  }

  /** The leaf as a number: no bit is set but those of the address and the attributes asked for. */
  lemma PageInNumbers(pa: nat, perms: Permissions, memType: MemType)
    requires pa % 0x1000 == 0
    ensures PageDescriptor(pa, perms, memType) ==
            pa % 0x4_0000_0000_0000 + 0x402 + (if perms.read then 1 else 0)
            + (if memType == NORMAL then 0x304 else 0) + (if perms.execute then 0 else 0x60_0000_0000_0000)
            + (if !perms.read then 0
               else if perms.write then (if perms.user then 0x40 else 0)
               else (if perms.user then 0xC0 else 0x80))
  {
    Pow2Values();
    Places();
    hide Field, Assign, Pow2;
    var never := if perms.execute then 0 else 1;
    var e1 := Assign(0, 0, 1, 1);
    var e2 := Assign(e1, 1, 1, 1);
    var e3 := Assign(e2, 12, 36, pa / 0x1000);
    var e4 := Assign(e3, 48, 2, pa / 0x1_0000_0000_0000);
    var e5 := Assign(e4, 54, 1, never);
    var e6 := Assign(e5, 53, 1, never);
    AddressWord(pa, e1, e2, e3, e4);
    Assigned(e4, 54, 1, never);
    Assigned(e5, 53, 1, never);
    AssignAdds(e4, 54, 1, never);
    AssignAdds(e5, 53, 1, never);
    AttributeBits(e6, perms, memType);
  }

  /** Type and address, and nothing else yet. */
  lemma AddressWord(pa: nat, e1: Word, e2: Word, e3: Word, e4: Word)
    requires pa % 0x1000 == 0 && e1 == Assign(0, 0, 1, 1) && e2 == Assign(e1, 1, 1, 1)
    requires e3 == Assign(e2, 12, 36, pa / 0x1000) && e4 == Assign(e3, 48, 2, pa / 0x1_0000_0000_0000)
    ensures e4 == pa % 0x4_0000_0000_0000 + 3
    ensures Field(e4, 0, 1) == 1 && Field(e4, 2, 3) == 0 && Field(e4, 6, 2) == 0 && Field(e4, 8, 2) == 0
    ensures Field(e4, 10, 1) == 0 && Field(e4, 53, 1) == 0 && Field(e4, 54, 1) == 0
  {
    Pow2Values();
    Places();
    hide Field, Assign, Pow2;
    Assigned(0, 0, 1, 1);
    Assigned(e1, 1, 1, 1);
    Assigned(e2, 12, 36, pa / 0x1000);
    Assigned(e3, 48, 2, pa / 0x1_0000_0000_0000);
    AssignAdds(0, 0, 1, 1);
    AssignAdds(e1, 1, 1, 1);
    AssignAdds(e2, 12, 36, pa / 0x1000);
    AssignAdds(e3, 48, 2, pa / 0x1_0000_0000_0000);
    NothingSet();
    AddressParts50(pa / 0x1000, pa);
  }

  lemma NothingSet()
    ensures forall lo: nat, width: nat {:trigger Field(0, lo, width)} :: Field(0, lo, width) == 0
  {
    forall lo: nat, width: nat
      ensures Field(0, lo, width) == 0
    {
      ZeroFields(lo, width);
    }
  }

  /** What the remaining assignments add. */
  lemma AttributeBits(e6: Word, perms: Permissions, memType: MemType)
    requires Field(e6, 0, 1) == 1 && Field(e6, 2, 3) == 0 && Field(e6, 6, 2) == 0 && Field(e6, 8, 2) == 0
    requires Field(e6, 10, 1) == 0
    ensures var e7 := if !perms.read then Assign(e6, 0, 1, 0) else Assign(e6, 6, 2, ApBits(perms));
            var e8 := Assign(e7, 10, 1, 1);
            var e := if memType.DEVICE? then Assign(Assign(e8, 2, 3, 0), 8, 2, 0)
              else Assign(Assign(e8, 2, 3, 1), 8, 2, 3);
            e + (if perms.read then 0 else 1) ==
            e6 + 0x400 + (if memType == NORMAL then 0x304 else 0)
            + (if !perms.read then 0
               else if perms.write then (if perms.user then 0x40 else 0)
               else (if perms.user then 0xC0 else 0x80))
  {
    Pow2Values();
    Places();
    hide Field, Assign, Pow2;
    var e7 := if !perms.read then Assign(e6, 0, 1, 0) else Assign(e6, 6, 2, ApBits(perms));
    var e8 := Assign(e7, 10, 1, 1);
    var attr, sh := if memType.DEVICE? then 0 else 1, if memType.DEVICE? then 0 else 3;
    var e9 := Assign(e8, 2, 3, attr);
    Assigned(e6, 0, 1, 0);
    Assigned(e6, 6, 2, ApBits(perms));
    Assigned(e7, 10, 1, 1);
    Assigned(e8, 2, 3, attr);
    AssignAdds(e6, 0, 1, 0);
    AssignAdds(e6, 6, 2, ApBits(perms));
    AssignAdds(e7, 10, 1, 1);
    AssignAdds(e8, 2, 3, attr);
    AssignAdds(e9, 8, 2, sh);
  }

  lemma AddressParts50(f: nat, pa: nat)
    requires pa == f * PAGE_SIZE
    ensures pa / 0x1000 % 0x10_0000_0000 * PAGE_SIZE + pa / 0x1_0000_0000_0000 % 4 * 0x1_0000_0000_0000
            == pa % 0x4_0000_0000_0000
  {
    assert pa / 0x1000 == f;
    assert pa / 0x1_0000_0000_0000 == f / 0x10_0000_0000;
    assert pa % 0x4_0000_0000_0000 == f % 0x40_0000_0000 * PAGE_SIZE;
    var q, r := f / 0x40_0000_0000, f % 0x40_0000_0000;
    assert f / 0x10_0000_0000 == 4 * q + r / 0x10_0000_0000;
  }

  /** map_page stores addresses below 2^50 faithfully, and no others. */
  lemma OutputAddressExact(pa: nat, perms: Permissions, memType: MemType)
    requires pa % PAGE_SIZE == 0
    ensures OutputAddress(PageDescriptor(pa, perms, memType)) == pa <==> pa < 0x4_0000_0000_0000
  {
    hide PageDescriptor, OutputAddress;
    PageDescriptorFields(pa, perms, memType);
  }

  // ---- permissions

  /** check_table_permissions, for a valid entry. */
  predicate TablePermits(e: Word, perms: Permissions) {
    var ap := ApTable(e);
    if perms.user then
      if ap == 1 || ap == 3 then false
      else !(perms.write && ap == 2)
    else
      !(perms.write && (ap == 2 || ap == 3))
  }

  /** A table entry that restricts neither data access nor execution. */
  predicate NoRestriction(e: Word) {
    ApTable(e) == 0 && XnTable(e) == 0 && PxnTable(e) == 0
  }

  /** Data access by exception level. */
  datatype Access = Access(privRead: bool, privWrite: bool, userRead: bool, userWrite: bool)

  /** AP[2:1] of a leaf: AP[1] opens the page to EL0, AP[2] makes it read-only. */
  function LeafAccess(ap: nat): Access {
    var user, readOnly := ap % 2 == 1, ap / 2 == 1;
    Access(true, !readOnly, user, user && !readOnly)
  }

  /** APTable[0] closes everything below to EL0, APTable[1] makes it read-only. */
  function Restrict(a: Access, apTable: nat): Access {
    var noUser, readOnly := apTable % 2 == 1, apTable / 2 == 1;
    Access(a.privRead, a.privWrite && !readOnly, a.userRead && !noUser, a.userWrite && !noUser && !readOnly)
  }

  /** The access has what is asked for, at the level it is asked for. */
  predicate Grants(a: Access, perms: Permissions) {
    if perms.user then a.userRead && (perms.write ==> a.userWrite) else a.privRead && (perms.write ==> a.privWrite)
  }

  /** The check refuses exactly the tables that would take away something of what is asked for. */
  lemma TablePermitsIff(e: Word, perms: Permissions)
    ensures TablePermits(e, perms) <==>
            forall a: Access {:trigger Restrict(a, ApTable(e))} ::
              Grants(a, perms) ==> Grants(Restrict(a, ApTable(e)), perms)
    ensures var apTable := e / 0x2000_0000_0000_0000 % 4;
            TablePermits(e, perms) <==>
            if perms.user then apTable == 0 || (apTable == 2 && !perms.write) else apTable < 2 || !perms.write
  {
    PartsInNumbers(e);
    hide ApTable;
    var all := Access(true, true, true, true);
    assert Grants(all, perms);
    if !TablePermits(e, perms) {
      assert !Grants(Restrict(all, ApTable(e)), perms);
    }
  }

  /** Access through three tables to a leaf: restrictions accumulate. */
  function Effective(path: seq<Word>): Access
    requires |path| == 4
  {
    Restrict(Restrict(Restrict(LeafAccess(Ap(path[3])), ApTable(path[2])), ApTable(path[1])), ApTable(path[0]))
  }

  /** What each level contributes: AP[2] and any APTable[1] take writing away, AP[1] opens the page to EL0 unless some
    APTable[0] is set. */
  lemma EffectiveIs(path: seq<Word>)
    requires |path| == 4
    ensures Effective(path).privRead
    ensures Effective(path).privWrite <==> Ap(path[3]) < 2 && forall k: nat :: k < 3 ==> ApTable(path[k]) < 2
    ensures Effective(path).userRead <==> Ap(path[3]) % 2 == 1 && forall k: nat :: k < 3 ==> ApTable(path[k]) % 2 == 0
    ensures Effective(path).userWrite <==> Ap(path[3]) == 1 && forall k: nat :: k < 3 ==> ApTable(path[k]) == 0
  {
    hide Field, Restrict, Ap, ApTable;
    TwoBits(path[0]);
    TwoBits(path[1]);
    TwoBits(path[2]);
    TwoBits(path[3]);
    var (a, x, y, z) := (LeafAccess(Ap(path[3])), ApTable(path[2]), ApTable(path[1]), ApTable(path[0]));
    RestrictIs(a, x);
    RestrictIs(Restrict(a, x), y);
    RestrictIs(Restrict(Restrict(a, x), y), z);
  }

  lemma TwoBits(e: Word)
    ensures ApTable(e) < 4 && Ap(e) < 4
  {
    Pow2Values();
  }

  lemma RestrictIs(a: Access, x: nat)
    requires x < 4
    ensures Restrict(a, x) ==
            Access(a.privRead, a.privWrite && x < 2, a.userRead && x % 2 == 0, a.userWrite && x == 0)
  {
  }

  /** If every table on the way permits the request, a readable mapping gives exactly what was
    asked for at the level it is meant for, and nothing to EL0 unless asked. */
  lemma EffectiveAsRequested(path: seq<Word>, pa: nat, perms: Permissions, memType: MemType)
    requires |path| == 4 && path[3] == PageDescriptor(pa, perms, memType) && pa % PAGE_SIZE == 0 && perms.read
    requires forall k: nat :: k < 3 ==> TablePermits(path[k], perms)
    ensures perms.user ==> Effective(path).userRead && Effective(path).userWrite == perms.write
    ensures !perms.user ==> Effective(path).privRead && Effective(path).privWrite == perms.write
    ensures !perms.user ==> !Effective(path).userRead && !Effective(path).userWrite
  {
    hide PageDescriptor, Field, Pow2;
    PageDescriptorFields(pa, perms, memType);
    Pow2Values();
    assert ApTable(path[0]) < 4 && ApTable(path[1]) < 4 && ApTable(path[2]) < 4;
    assert TablePermits(path[0], perms) && TablePermits(path[1], perms) && TablePermits(path[2], perms);
  }

  /** EL0 executes a page whose leaf has UXN clear, below tables that all have UXNTable clear. */
  predicate UserExecutes(path: seq<Word>)
    requires |path| == 4
  {
    Valid(path[3]) && Xn(path[3]) == 0 && forall k: nat :: k < 3 ==> XnTable(path[k]) == 0
  }

  /** EL1 executes a page whose leaf has PXN clear, below tables that all have PXNTable clear, unless
    EL0 can write it: what EL0 can write is never executable at EL1. */
  predicate PrivExecutes(path: seq<Word>)
    requires |path| == 4
  {
    && Valid(path[3]) && Pxn(path[3]) == 0 && (forall k: nat :: k < 3 ==> PxnTable(path[k]) == 0)
    && !Effective(path).userWrite
  }

  /** Execution at the exception level a mapping is meant for. */
  predicate Executes(path: seq<Word>, user: bool)
    requires |path| == 4
  {
    if user then UserExecutes(path) else PrivExecutes(path)
  }

  function NeverTable(e: Word, user: bool): nat {
    if user then XnTable(e) else PxnTable(e)
  }

  lemma LeafOf(pa: nat, perms: Permissions, memType: MemType)
    requires pa % PAGE_SIZE == 0
    ensures var e := PageDescriptor(pa, perms, memType);
            && Valid(e) == perms.read && Xn(e) == Pxn(e) == (if perms.execute then 0 else 1)
            && (!perms.user ==> Ap(e) % 2 == 0) && (perms.read && perms.user && perms.write ==> Ap(e) == 1)
            && (perms.read && !perms.write ==> Ap(e) / 2 == 1)
  {
    hide PageDescriptor, Field, Pow2;
    PageDescriptorFields(pa, perms, memType);
    Pow2Values();
  }

  /** Where a granted readable mapping executes: at EL0 whoever asked, unless a table forbids it; at EL1
    likewise, but never if EL0 was given write access. */
  lemma ExecutionAtBothLevels(path: seq<Word>, pa: nat, perms: Permissions, memType: MemType)
    requires |path| == 4 && path[3] == PageDescriptor(pa, perms, memType) && pa % PAGE_SIZE == 0 && perms.read
    requires forall k: nat :: k < 3 ==> TablePermits(path[k], perms)
    ensures UserExecutes(path) <==> perms.execute && forall k: nat :: k < 3 ==> XnTable(path[k]) == 0
    ensures PrivExecutes(path) <==>
            perms.execute && !(perms.user && perms.write) && forall k: nat :: k < 3 ==> PxnTable(path[k]) == 0
  {
    hide PageDescriptor, Field, Pow2, Xn, Pxn, XnTable, PxnTable;
    LeafOf(pa, perms, memType);
    Pow2Values();
    EffectiveAsRequested(path, pa, perms, memType);
    if perms.user && !perms.write {
      assert !LeafAccess(Ap(path[3])).userWrite;
    }
  }

  /** Execution is not checked against the tables: at the intended level it is as requested exactly when it
    was not requested, or the mapping is readable and no table on the way forbids it for that level. */
  lemma ExecutionAsRequested(path: seq<Word>, pa: nat, perms: Permissions, memType: MemType)
    requires |path| == 4 && path[3] == PageDescriptor(pa, perms, memType) && pa % PAGE_SIZE == 0
    ensures Executes(path, perms.user) == perms.execute <==>
            !perms.execute || (perms.read && forall k: nat :: k < 3 ==> NeverTable(path[k], perms.user) == 0)
  {
    hide PageDescriptor, Field, Pow2, Xn, Pxn, XnTable, PxnTable;
    LeafOf(pa, perms, memType);
  }

  /** A table entry with one of the execute-never bits set, restricting nothing else. */
  lemma RestrictingTable(bit: nat) returns (e: Word)
    requires bit == 59 || bit == 60
    ensures Valid(e) && TableOrPage(e) && ApTable(e) == 0
    ensures PxnTable(e) == (if bit == 59 then 1 else 0) && XnTable(e) == (if bit == 60 then 1 else 0)
  {
    hide TableDescriptor, Field, Assign, Pow2;
    var t := TableDescriptor(PAGE_SIZE);
    TableDescriptorFields(PAGE_SIZE);
    e := Assign(t, bit, 1, 1);
    Assigned(t, bit, 1, 1);
    Pow2Values();
    assert Field(e, 0, 1) == Field(t, 0, 1) && Field(e, 1, 1) == Field(t, 1, 1);
    assert Field(e, 61, 2) == Field(t, 61, 2);
    assert Field(e, 119 - bit, 1) == Field(t, 119 - bit, 1);
  }

  /** The check lets an executable mapping pass, for EL1 and for EL0, that cannot be executed there. */
  lemma ExecutionRefusedAnyway(user: bool) returns (path: seq<Word>, perms: Permissions)
    ensures |path| == 4 && perms == Permissions(true, false, true, user)
            && path[3] == PageDescriptor(PAGE_SIZE, perms, NORMAL)
    ensures forall k: nat :: k < 3 ==> Valid(path[k]) && TableOrPage(path[k]) && TablePermits(path[k], perms)
    ensures !Executes(path, user)
    ensures user ==> forall k: nat :: k < 3 ==> PxnTable(path[k]) == 0
    ensures !user ==> forall k: nat :: k < 3 ==> XnTable(path[k]) == 0
  {
    hide PageDescriptor, Field, Pow2;
    perms := Permissions(true, false, true, user);
    var e := RestrictingTable(if user then 60 else 59);
    path := [e, e, e, PageDescriptor(PAGE_SIZE, perms, NORMAL)];
    assert path[0] == e;
  }
}
