/** Descriptors as 64-bit words in memory, and page tables in memory as the hardware and the
    driver read them. */
module MmuMemory {
  import opened Words
  import opened Arith
  import opened MmuGeometry
  import opened MmuTree
  import opened Balloc

  type Memory = map<int, int>

  function Read(mem: Memory, a: int): int
  {
    if a in mem then mem[a] else 0
  }

  const INVALID_DESC := 0xFFFF_FFFF_FFFF_FFFE
  const VALID := 0x1
  const TYPE_TABLE := 0x2
  const TYPE_PAGE := 0x2
  const AP_EL0 := 0x40
  const AF := 0x400
  const PXN := 0x20_0000_0000_0000
  const XN := 0x40_0000_0000_0000

  /** The descriptor of a block or page; the fields do not overlap below 2^48. */
  function LeafDesc(l: nat, pa: nat): int
  {
    pa + VALID + (if l == MAX_LEVEL then TYPE_PAGE else 0) + PXN + XN + AP_EL0 + AF
  }

  function TableDesc(addr: int): int
  {
    addr + VALID + TYPE_TABLE
  }

  function Enc(l: nat, e: Entry): int
  {
    match e
    case Invalid => INVALID_DESC
    case Leaf(pa) => LeafDesc(l, pa)
    case Sub(t) => TableDesc(t.addr)
  }

  predicate IsValid(d: int) { d % 2 == 1 }

  predicate IsTable(d: int) { IsValid(d) && d / 2 % 2 == 1 }

  /** `NEXT_TABLE_PTR`: truncated to 32 bits, offset bits cleared. */
  function NextTable(g: Geometry, d: int): int
  {
    d % WORD / PageSize(g) * PageSize(g)
  }

  /** Output address field: bits 47 to 12. */
  function OutField(d: int): int
  {
    d % MAX_PA / 4096 * 4096
  }

  /** Decoding inverts encoding: validity, kind, the address carried, and for blocks and pages
      the attributes. */
  lemma DecodeEnc(g: Geometry, l: nat, e: Entry)
    requires Known(g) && AtLevel(g, l) && EntryWF(g, l, e)
    ensures IsValid(Enc(l, e)) <==> !e.Invalid?
    ensures l < MAX_LEVEL ==> (IsTable(Enc(l, e)) <==> e.Sub?)
    ensures l == MAX_LEVEL ==> (IsTable(Enc(l, e)) <==> e.Leaf?)
    ensures e.Sub? ==> NextTable(g, Enc(l, e)) == e.t.addr
    ensures e.Leaf? ==> OutField(Enc(l, e)) == e.pa && AttrOf(Enc(l, e)) == DATA_ATTR
  {
    hide PageSize, TableBytes, BlockSize, AttrOf;
    match e
    case Invalid =>
    case Leaf(pa) => LeafFields(l, pa);
    case Sub(t) =>
      LevelSizes(g, l + 1);
      assert PlaceOk(g, l + 1, t.addr);
      PointerFields(t.addr, PageSize(g));
  }

  /** The attributes of a block or page descriptor, as the SMMU reads them (ARM DDI0487C, section
      D4.3.3): memory attribute index, security, access permissions, shareability, access flag,
      not-global, contiguous, and the two execute-never bits. */
  datatype Attr = Attr(index: int, ns: int, ap: int, sh: int, af: int, ng: int, contiguous: int, pxn: int, xn: int)

  function AttrOf(d: int): Attr
  {
    Attr(d / 4 % 8, d / 0x20 % 2, d / 0x40 % 4, d / 0x100 % 4, d / 0x400 % 2, d / 0x800 % 2,
         d / 0x10_0000_0000_0000 % 2, d / 0x20_0000_0000_0000 % 2, d / 0x40_0000_0000_0000 % 2)
  }

  /** Accessible without a fault, read-write at EL0, never executable. */
  const DATA_ATTR := Attr(0, 0, 1, 0, 1, 0, 0, 1, 1)

  /** A table descriptor that restricts nothing below it: bits 59 to 63 clear. */
  predicate Unrestricted(d: int) { d / 0x800_0000_0000_0000 == 0 }

  lemma LeafFields(l: nat, pa: nat)
    requires pa % 4096 == 0 && pa < MAX_PA
    ensures var d := LeafDesc(l, pa); OutField(d) == pa && IsValid(d) && (d / 2 % 2 == 1 <==> l == MAX_LEVEL)
    ensures AttrOf(LeafDesc(l, pa)) == DATA_ATTR
  {
    var low := VALID + (if l == MAX_LEVEL then TYPE_PAGE else 0) + AP_EL0 + AF;
    FieldAndFlags(pa, low);
    assert LeafDesc(l, pa) == pa + low + 96 * MAX_PA;
    FlagBits(pa, low);
  }

  lemma FieldAndFlags(pa: nat, low: nat)
    requires pa % 4096 == 0 && pa < MAX_PA && low < 4096
    ensures OutField(pa + low + 96 * MAX_PA) == pa
  {
    DivUnique(pa + low + 96 * MAX_PA, MAX_PA, 96);
    DivBounds(pa, 4096);
    DivUnique(pa + low, 4096, pa / 4096);
  }

  lemma FlagBits(pa: nat, low: nat)
    requires pa % 4096 == 0 && pa < MAX_PA && (low == 0x441 || low == 0x443)
    ensures var d := pa + low + 96 * MAX_PA;
            d % 2 == 1 && (d / 2 % 2 == 1 <==> low == 0x443) && AttrOf(d) == DATA_ATTR
  {
    var q, d := pa / 4096 + 24 * (MAX_PA / 1024), pa + low + 96 * MAX_PA;
    assert d == low + 4096 * q;
    LowFields(low, q);
    HighFields(pa + low);
  }

  lemma LowFields(low: nat, q: nat)
    requires low == 0x441 || low == 0x443
    ensures var d := low + 4096 * q;
            && d % 2 == 1 && (d / 2 % 2 == 1 <==> low == 0x443) && d / 4 % 8 == 0 && d / 0x20 % 2 == 0
            && d / 0x40 % 4 == 1 && d / 0x100 % 4 == 0 && d / 0x400 % 2 == 1 && d / 0x800 % 2 == 0
  {
    LowField(low, q, 1, 2);
    LowField(low, q, 2, 2);
    LowField(low, q, 4, 8);
    LowField(low, q, 0x20, 2);
    LowField(low, q, 0x40, 4);
    LowField(low, q, 0x100, 4);
    LowField(low, q, 0x400, 2);
    LowField(low, q, 0x800, 2);
  }

  lemma HighFields(rest: nat)
    requires rest < 2 * MAX_PA
    ensures var d := rest + 96 * MAX_PA;
            && d / 0x10_0000_0000_0000 % 2 == 0 && d / 0x20_0000_0000_0000 % 2 == 1 && d / 0x40_0000_0000_0000 % 2 == 1
  {
    var d := rest + 96 * MAX_PA;
    DivUnique(d, 0x10_0000_0000_0000, 6);
    DivUnique(d, 0x20_0000_0000_0000, 3);
    DivUnique(d, 0x40_0000_0000_0000, 1);
  }

  /** A field below bit 12 does not see the address. */
  lemma LowField(low: nat, q: nat, weight: nat, size: nat)
    requires weight > 0 && size > 0 && 4096 % (weight * size) == 0
    ensures (low + 4096 * q) / weight % size == low / weight % size
  {
    var m := 4096 / (weight * size);
    assert 4096 == weight * (size * m);
    AddMultiple(low, weight, size * m * q);
    AddMultiple(low / weight, size, m * q);
    assert weight * (size * m * q) == 4096 * q && size * (m * q) == size * m * q;
  }

  lemma PointerFields(addr: u32, p: nat)
    requires p > 0 && p % 4096 == 0 && addr % p == 0 && addr + p <= WORD
    ensures var d := TableDesc(addr);
            Quotient(d % WORD, p) * p == addr && d % 2 == 1 && d / 2 % 2 == 1
  {
    hide Quotient;
    MultipleOf4096(addr, p);
    LowBits(addr);
    TruncatedPointer(addr, p);
  }

  lemma LowBits(addr: nat)
    requires addr % 4096 == 0
    ensures (addr + 3) % 2 == 1 && (addr + 3) / 2 % 2 == 1
  {
  }

  lemma TruncatedPointer(addr: u32, p: nat)
    requires p >= 4096 && addr % p == 0 && addr + p <= WORD
    ensures Quotient((addr + 3) % WORD, p) * p == addr
  {
    assert (addr + 3) % WORD == addr + 3;
    DivBounds(addr, p);
    DivUnique(addr + 3, p, addr / p);
  }

  lemma MultipleOf4096(addr: nat, p: nat)
    requires p > 0 && p % 4096 == 0 && addr % p == 0
    ensures addr % 4096 == 0 && p >= 4096
  {
    DivBounds(addr, p);
    DivBounds(p, 4096);
    assert addr == addr / p * (p / 4096) * 4096 by { MulAssoc(addr / p, p / 4096, 4096); }
    DivUnique(addr, 4096, addr / p * (p / 4096));
  }

  function Slot(addr: int, i: int): int
  {
    addr + 8 * i
  }

  /** The memory holds the tree. */
  ghost predicate Rep(g: Geometry, l: nat, t: Table, mem: Memory)
    requires WF(g, l, t)
    decreases t
  {
    forall i | 0 <= i < |t.ents| ::
      && Read(mem, Slot(t.addr, i)) == Enc(l, t.ents[i])
      && (t.ents[i].Sub? ==> Rep(g, l + 1, t.ents[i].t, mem))
  }

  /** The address field of a table descriptor: bits 47 down to the page size. */
  function TableField(g: Geometry, d: int): int
  {
    d % MAX_PA / PageSize(g) * PageSize(g)
  }

  /** The block or page descriptor the table walker finds for `x`, and its level. */
  function HwFind(g: Geometry, l: nat, mem: Memory, table: int, x: nat): Option<(nat, int)>
    requires l <= MAX_LEVEL
    decreases MAX_LEVEL - l
  {
    var d := Read(mem, Slot(table, Index(g, l, x)));
    if !IsValid(d) then None
    else if l < MAX_LEVEL && IsTable(d) then
      if Unrestricted(d) then HwFind(g, l + 1, mem, TableField(g, d), x) else None
    else if l == MAX_LEVEL && !IsTable(d) then None
    else Some((l, d))
  }

  /** Where a device's read or write of `x` goes, from a level-`l` table at `table`: nowhere
      without a descriptor whose access flag is set and that permits reads and writes. */
  function HwWalk(g: Geometry, l: nat, mem: Memory, table: int, x: nat): Option<Hit>
    requires l <= MAX_LEVEL
  {
    match HwFind(g, l, mem, table, x)
    case None => None
    case Some((k, d)) =>
      if AttrOf(d).af == 1 && AttrOf(d).ap == 1 && OutField(d) >= 0 then Some(Hit(k, OutField(d))) else None
  }

  /** Every descriptor the hardware finds in a tree held by memory is one for data, at the place
      and with the address the tree has. */
  lemma {:induction false} HwFindIsLookup(g: Geometry, l: nat, t: Table, mem: Memory, x: nat)
    requires Known(g) && WF(g, l, t) && Rep(g, l, t, mem)
    ensures HwFind(g, l, mem, t.addr, x).Some? <==> Lookup(g, l, t, x).Some?
    ensures HwFind(g, l, mem, t.addr, x).Some? ==>
      var (k, d) := HwFind(g, l, mem, t.addr, x).value;
      Lookup(g, l, t, x) == Some(Hit(k, OutField(d))) && AttrOf(d) == DATA_ATTR
    decreases t
  {
    hide Index, IsValid, IsTable, TableField, OutField, PlaceOk, Enc, AttrOf, Unrestricted;
    var e := t.ents[Index(g, l, x)];
    DecodeEnc(g, l, e);
    if e.Sub? {
      HwReadsTable(g, l, e);
      HwFindIsLookup(g, l + 1, e.t, mem, x);
    }
  }

  lemma HwReadsTable(g: Geometry, l: nat, e: Entry)
    requires Known(g) && AtLevel(g, l) && EntryWF(g, l, e) && e.Sub?
    ensures Unrestricted(Enc(l, e)) && TableField(g, Enc(l, e)) == e.t.addr
  {
    hide PageSize, TableBytes, BlockSize;
    LevelSizes(g, l + 1);
    assert PlaceOk(g, l + 1, e.t.addr);
    WidePointer(e.t.addr, PageSize(g));
  }

  lemma WidePointer(addr: u32, p: nat)
    requires p > 0 && p % 4096 == 0 && addr % p == 0 && addr + p <= WORD
    ensures var d := TableDesc(addr); Unrestricted(d) && Quotient(d % MAX_PA, p) * p == addr
  {
    hide Quotient;
    MultipleOf4096(addr, p);
    TruncatedPointer(addr, p);
    assert (addr + 3) % MAX_PA == (addr + 3) % WORD;
  }

  /** The hardware sees the tree the memory holds. */
  lemma HwWalkIsLookup(g: Geometry, l: nat, t: Table, mem: Memory, x: nat)
    requires Known(g) && WF(g, l, t) && Rep(g, l, t, mem)
    ensures HwWalk(g, l, mem, t.addr, x) == Lookup(g, l, t, x)
  {
    hide OutField, Rep, AttrOf;
    HwFindIsLookup(g, l, t, mem, x);
  }

  /** No word inside any of the blocks differs. */
  ghost predicate SameOn(blocks: set<Block>, mem: Memory, mem': Memory)
  {
    forall b, a | b in blocks && b.addr <= a < b.addr + b.size :: Read(mem', a) == Read(mem, a)
  }

  lemma SlotInside(g: Geometry, l: nat, t: Table, i: nat)
    requires Known(g) && WF(g, l, t) && i < |t.ents|
    ensures t.addr <= Slot(t.addr, i) < t.addr + TableBytes(g, l) && OwnBlock(g, l, t).Covers(Slot(t.addr, i))
  {
    hide TableBytes, Entries, BlockSize, PageSize;
    LevelSizes(g, l);
  }

  lemma {:induction false} RepFrame(g: Geometry, l: nat, t: Table, mem: Memory, mem': Memory)
    requires Known(g) && WF(g, l, t) && Rep(g, l, t, mem) && SameOn(Blocks(g, l, t), mem, mem')
    ensures Rep(g, l, t, mem')
    decreases t
  {
    hide TableBytes, PlaceOk, Enc, Blocks, Slot, Read;
    var next := l + 1;
    forall i: nat | i < |t.ents|
      ensures Read(mem', Slot(t.addr, i)) == Enc(l, t.ents[i])
      ensures t.ents[i].Sub? ==> Rep(g, next, t.ents[i].t, mem')
    {
      SlotInside(g, l, t, i);
      OwnBlockAmong(g, l, t);
      if t.ents[i].Sub? {
        EntryBlocksWithin(g, l, t, i);
        RepFrame(g, next, t.ents[i].t, mem, mem');
      }
    }
  }

  lemma OwnBlockAmong(g: Geometry, l: nat, t: Table)
    requires WF(g, l, t)
    ensures OwnBlock(g, l, t) in Blocks(g, l, t)
  {
  }

  ghost predicate AllApart(blocks: set<Block>)
  {
    forall b, c | b in blocks && c in blocks && b != c :: b.Apart(c)
  }

  /** A word in one block is in no other. */
  lemma OutsideOthers(blocks: set<Block>, b: Block, others: set<Block>, mem: Memory, a: int, d: int)
    requires AllApart(blocks) && b in blocks && others <= blocks && b !in others && b.Covers(a)
    ensures SameOn(others, mem, mem[a := d])
  {
  }

  /** One descriptor written in memory is `SetEntry` on the tree. */
  lemma {:induction false} RepWrite(g: Geometry, l: nat, t: Table, v: nat, k: nat, e: Entry, mem: Memory,
        live: set<Block>)
    requires Known(g) && WF(g, l, t) && HasPath(g, l, t, v, k) && EntryWF(g, k, e)
    requires Rep(g, l, t, mem) && NoSharing(g, l, t) && Blocks(g, l, t) <= live && AllApart(live)
    requires e.Sub? ==> Rep(g, k + 1, e.t, mem) && Blocks(g, k + 1, e.t) <= live - Blocks(g, l, t)
    ensures var mem' := mem[Slot(TableAt(g, l, t, v, k).addr, Index(g, k, v)) := Enc(k, e)];
            Rep(g, l, SetEntry(g, l, t, v, k, e), mem')
    decreases t
  {
    hide TableBytes, PlaceOk, Enc, Blocks, NoSharing, Index, Slot, Rep, WF, HasPath;
    var s := TableAt(g, l, t, v, k);
    var a := Slot(s.addr, Index(g, k, v));
    PathParts(g, l, t, v, k);
    SlotInside(g, k, s, Index(g, k, v));
    TableAtBlocks(g, l, t, v, k);
    OwnBlockAmong(g, k, s);
    var own := OwnBlock(g, k, s);
    var mem' := mem[a := Enc(k, e)];
    if l == k {
      WriteHere(g, l, t, Index(g, l, v), e, mem, live);
    } else {
      var i := Index(g, l, v);
      var c := t.ents[i].t;
      EntryBlocksWithin(g, l, t, i);
      RepParts(g, l, t, i, mem);
      RepWrite(g, l + 1, c, v, k, e, mem, live);
      TableAtBlocks(g, l + 1, c, v, k);
      WriteBelow(g, l, t, i, SetEntry(g, l + 1, c, v, k, e), own, a, Enc(k, e), mem, live);
    }
  }

  lemma PathParts(g: Geometry, l: nat, t: Table, v: nat, k: nat)
    requires WF(g, l, t) && HasPath(g, l, t, v, k)
    ensures l <= k <= MAX_LEVEL && AtLevel(g, l) && AtLevel(g, k) && Index(g, l, v) < |t.ents|
    ensures var s := TableAt(g, l, t, v, k); WF(g, k, s) && Index(g, k, v) < |s.ents|
    ensures l < k ==> t.ents[Index(g, l, v)].Sub? && WF(g, l + 1, t.ents[Index(g, l, v)].t)
                      && HasPath(g, l + 1, t.ents[Index(g, l, v)].t, v, k)
  {
    hide Index, PlaceOk;
  }

  lemma RepParts(g: Geometry, l: nat, t: Table, i: nat, mem: Memory)
    requires WF(g, l, t) && Rep(g, l, t, mem) && i < |t.ents| && t.ents[i].Sub?
    ensures WF(g, l + 1, t.ents[i].t) && Rep(g, l + 1, t.ents[i].t, mem)
  {
  }

  /** The written word is in table `t` itself. */
  lemma WriteHere(g: Geometry, l: nat, t: Table, i: nat, e: Entry, mem: Memory, live: set<Block>)
    requires Known(g) && WF(g, l, t) && i < |t.ents| && EntryWF(g, l, e)
    requires Rep(g, l, t, mem) && NoSharing(g, l, t) && Blocks(g, l, t) <= live && AllApart(live)
    requires e.Sub? ==> Rep(g, l + 1, e.t, mem) && Blocks(g, l + 1, e.t) <= live - Blocks(g, l, t)
    ensures WF(g, l, Table(t.addr, t.ents[i := e]))
    ensures Rep(g, l, Table(t.addr, t.ents[i := e]), mem[Slot(t.addr, i) := Enc(l, e)])
  {
    assert WF(g, l, Table(t.addr, t.ents[i := e]));
    hide TableBytes, PlaceOk, Enc, Blocks;
    var mem', next := mem[Slot(t.addr, i) := Enc(l, e)], l + 1;
    var t' := Table(t.addr, t.ents[i := e]);
    OwnBlockAmong(g, l, t);
    SlotInside(g, l, t, i);
    forall j: nat | j < |t'.ents|
      ensures Read(mem', Slot(t.addr, j)) == Enc(l, t'.ents[j])
      ensures t'.ents[j].Sub? ==> Rep(g, next, t'.ents[j].t, mem')
    {
      if t'.ents[j].Sub? {
        ChildKept(g, l, t, i, j, e, mem, live);
      }
    }
  }

  lemma ChildKept(g: Geometry, l: nat, t: Table, i: nat, j: nat, e: Entry, mem: Memory, live: set<Block>)
    requires Known(g) && WF(g, l, t) && i < |t.ents| && j < |t.ents| && EntryWF(g, l, e)
    requires Rep(g, l, t, mem) && NoSharing(g, l, t) && Blocks(g, l, t) <= live && AllApart(live)
    requires e.Sub? ==> Rep(g, l + 1, e.t, mem) && Blocks(g, l + 1, e.t) <= live - Blocks(g, l, t)
    requires t.ents[i := e][j].Sub?
    ensures var c := t.ents[i := e][j].t;
            WF(g, l + 1, c) && Rep(g, l + 1, c, mem[Slot(t.addr, i) := Enc(l, e)])
  {
    hide TableBytes, PlaceOk, Enc, Blocks, Slot;
    var c, next := t.ents[i := e][j].t, l + 1;
    OwnBlockAmong(g, l, t);
    SlotInside(g, l, t, i);
    if j != i {
      EntryBlocksWithin(g, l, t, j);
      assert OwnBlock(g, l, t) !in EntryBlocks(g, l, t.ents[j]);
    }
    OutsideOthers(live, OwnBlock(g, l, t), Blocks(g, next, c), mem, Slot(t.addr, i), Enc(l, e));
    RepFrame(g, next, c, mem, mem[Slot(t.addr, i) := Enc(l, e)]);
  }

  /** The written word is in a block below entry `i`. */
  lemma WriteBelow(g: Geometry, l: nat, t: Table, i: nat, c': Table, own: Block, a: int, d: int, mem: Memory,
        live: set<Block>)
    requires Known(g) && WF(g, l, t) && i < |t.ents| && t.ents[i].Sub? && WF(g, l + 1, c')
    requires Rep(g, l, t, mem) && NoSharing(g, l, t) && Blocks(g, l, t) <= live && AllApart(live)
    requires own in Blocks(g, l + 1, t.ents[i].t) && own.Covers(a) && c'.addr == t.ents[i].t.addr
    requires Rep(g, l + 1, c', mem[a := d])
    ensures Rep(g, l, PutSub(g, l, t, i, c'), mem[a := d])
  {
    hide TableBytes, PlaceOk, Blocks, Slot;
    var mem', next := mem[a := d], l + 1;
    OwnBlockAmong(g, l, t);
    EntryBlocksWithin(g, l, t, i);
    assert own in EntryBlocks(g, l, t.ents[i]);
    OutsideOthers(live, own, {OwnBlock(g, l, t)}, mem, a, d);
    forall j: nat | j < |t.ents|
      ensures Read(mem', Slot(t.addr, j)) == Read(mem, Slot(t.addr, j))
      ensures j != i && t.ents[j].Sub? ==> Rep(g, next, t.ents[j].t, mem')
    {
      SlotInside(g, l, t, j);
      if j != i && t.ents[j].Sub? {
        EntryBlocksWithin(g, l, t, j);
        assert EntryBlocks(g, l, t.ents[i]) !! EntryBlocks(g, l, t.ents[j]) by {
          if j < i {
            assert EntryBlocks(g, l, t.ents[j]) !! EntryBlocks(g, l, t.ents[i]);
          }
        }
        OutsideOthers(live, own, Blocks(g, next, t.ents[j].t), mem, a, d);
        RepFrame(g, next, t.ents[j].t, mem, mem');
      }
    }
  }
}
