/** The loops of the driver one step at a time: linking a table while walking down, unlinking
    one while walking back. */
module MmuSteps {
  import opened Words
  import opened MmuGeometry
  import opened MmuTree
  import opened MmuMap
  import opened MmuRefine
  import opened MmuUnmap
  import opened MmuMemory
  import opened Balloc

  /** Linking one missing table leaves the same linking to be done below it. */
  lemma {:induction false} GrowStep(g: Geometry, l: nat, t: Table, v: nat, j: nat, k: nat, pool: Pool)
    requires Known(g) && WF(g, l, t) && j < k <= MAX_LEVEL && pool.Valid()
    requires HasPath(g, l, t, v, j) && !EntryAt(g, l, t, v, j).Sub?
    ensures NewTable(g, j + 1, pool).0.None? ==> Grow(g, l, t, v, k, pool) == Grown(t, pool, false)
    ensures NewTable(g, j + 1, pool).0.Some? ==>
      var (s, pool') := NewTable(g, j + 1, pool);
      var u := SetEntry(g, l, t, v, j, Sub(s.value));
      && Grow(g, l, t, v, k, pool) == Grow(g, l, u, v, k, pool')
      && HasPath(g, l, u, v, j + 1) && TableAt(g, l, u, v, j + 1) == s.value
    decreases t
  {
    hide Tiling, PlaceOk, Index, Grow, NewTable;
    var i := Index(g, l, v);
    var (s, pool') := NewTable(g, j + 1, pool);
    if l == j {
      GrowNew(g, l, t, v, k, pool);
      if s.Some? {
        GrowThrough(g, l, SetEntry(g, l, t, v, j, Sub(s.value)), v, k, pool');
        PutTwice(t.ents, i, Sub(s.value), Sub(Grow(g, l + 1, s.value, v, k, pool').t));
      }
    } else {
      GrowThrough(g, l, t, v, k, pool);
      GrowStep(g, l + 1, t.ents[i].t, v, j, k, pool);
      assert t.ents[i := t.ents[i]] == t.ents;
      if s.Some? {
        var u := SetEntry(g, l, t, v, j, Sub(s.value));
        GrowThrough(g, l, u, v, k, pool');
        PutTwice(t.ents, i, u.ents[i], Sub(Grow(g, l + 1, u.ents[i].t, v, k, pool').t));
      }
    }
  }

  lemma PutTwice(ents: seq<Entry>, i: nat, e: Entry, w: Entry)
    requires i < |ents|
    ensures ents[i := e][i := w] == ents[i := w]
  {
  }

  lemma {:induction false} GrowDone(g: Geometry, l: nat, t: Table, v: nat, k: nat, pool: Pool)
    requires Known(g) && WF(g, l, t) && pool.Valid() && HasPath(g, l, t, v, k)
    ensures Grow(g, l, t, v, k, pool) == Grown(t, pool, true)
    decreases t
  {
    hide Tiling, PlaceOk, Index, Grow, NewTable;
    if l == k {
      GrowNothing(g, l, t, v, pool);
    } else {
      GrowThrough(g, l, t, v, k, pool);
      GrowDone(g, l + 1, t.ents[Index(g, l, v)].t, v, k, pool);
      assert t.ents[Index(g, l, v) := t.ents[Index(g, l, v)]] == t.ents;
    }
  }

  /** One round of the backwards walk, at the level-`j` table on the path of `v`. */
  lemma {:induction false} BackStep(g: Geometry, l: nat, t: Table, v: nat, j: nat, pool: Pool)
    requires WF(g, l, t) && HasPath(g, l, t, v, j) && l < j
    ensures HasPath(g, l, t, v, j - 1)
    ensures var s := TableAt(g, l, t, v, j);
            NonEmpty(s) ==> BackWalk(g, l, t, v, j, pool) == Walked(t, pool, 0)
    ensures var s := TableAt(g, l, t, v, j);
            !NonEmpty(s) ==>
              var (rc, pool') := pool.Give(OwnBlock(g, j, s));
              var u := SetEntry(g, l, t, v, j - 1, Invalid);
              && HasPath(g, l, u, v, j - 1)
              && BackWalk(g, l, t, v, j, pool)
                 == if rc != 0 then Walked(u, pool', rc) else BackWalk(g, l, u, v, j - 1, pool')
    decreases t
  {
    hide Tiling, PlaceOk, Index, Pool.Give;
    var i := Index(g, l, v);
    var c := t.ents[i].t;
    assert t.ents[i := t.ents[i]] == t.ents;
    if l == j - 1 {
      assert BackWalk(g, l + 1, c, v, j, pool) == Walked(c, pool, 0);
    } else {
      BackStep(g, l + 1, c, v, j, pool);
      assert !c.ents[Index(g, l + 1, v)].Invalid?;
      if !NonEmpty(TableAt(g, l, t, v, j)) {
        var u := SetEntry(g, l, t, v, j - 1, Invalid);
        var r := BackWalk(g, l + 1, u.ents[i].t, v, j - 1, pool.Give(OwnBlock(g, j, TableAt(g, l, t, v, j))).1);
        PutTwice(t.ents, i, u.ents[i], Sub(r.t));
        PutTwice(t.ents, i, u.ents[i], Invalid);
      }
    }
  }

  lemma AllApartLive(pool: Pool)
    requires pool.Valid()
    ensures AllApart(pool.live)
  {
  }

  /** Words changed only inside `[addr, addr + n)`. */
  ghost predicate OnlyWithin(mem: Memory, mem': Memory, addr: int, n: int)
  {
    forall a | !(addr <= a < addr + n) :: Read(mem', a) == Read(mem, a)
  }

  lemma FreshSameOn(blocks: set<Block>, live: set<Block>, b: Block, mem: Memory, mem': Memory)
    requires blocks <= live && b in live && b !in blocks && AllApart(live) && OnlyWithin(mem, mem', b.addr, b.size)
    ensures SameOn(blocks, mem, mem')
  {
    hide Read;
    forall c, a | c in blocks && c.addr <= a < c.addr + c.size
      ensures Read(mem', a) == Read(mem, a)
    {
      assert c.Apart(b);
    }
  }

  ghost predicate Inside(blocks: set<Block>, a: int)
  {
    exists b :: b in blocks && b.Covers(a)
  }

  /** No word outside the blocks differs. */
  ghost predicate OutsideSame(blocks: set<Block>, mem: Memory, mem': Memory)
  {
    forall a :: Inside(blocks, a) || Read(mem', a) == Read(mem, a)
  }

  lemma OutsideTrans(blocks: set<Block>, more: set<Block>, mem: Memory, mid: Memory, mem': Memory)
    requires blocks <= more && OutsideSame(blocks, mem, mid) && OutsideSame(more, mid, mem')
    ensures OutsideSame(more, mem, mem')
  {
    hide Read;
    forall a
      ensures Inside(more, a) || Read(mem', a) == Read(mem, a)
    {
      if b :| b in blocks && b.Covers(a) {
        assert b in more;
      } else {
        assert Inside(more, a) || Read(mem', a) == Read(mid, a);
      }
    }
  }

  /** A store inside a block, or changes confined to one. */
  lemma OutsideWithin(blocks: set<Block>, b: Block, mem: Memory, mem': Memory)
    requires b in blocks && OnlyWithin(mem, mem', b.addr, b.size)
    ensures OutsideSame(blocks, mem, mem')
  {
    hide Read;
    forall a | b.addr <= a < b.addr + b.size
      ensures Inside(blocks, a)
    {
      assert b.Covers(a);
    }
  }

  lemma OneStore(b: Block, mem: Memory, a: int, d: int)
    requires b.Covers(a)
    ensures OnlyWithin(mem, mem[a := d], b.addr, b.size)
  {
  }

  /** A descriptor store lies inside the tree's own blocks. */
  lemma StoreInside(g: Geometry, t: Table, v: nat, k: nat, mem: Memory, d: int)
    requires Known(g) && WF(g, g.startLevel, t) && HasPath(g, g.startLevel, t, v, k) && AtLevel(g, k)
    ensures OutsideSame(Blocks(g, g.startLevel, t), mem,
                        mem[Slot(TableAt(g, g.startLevel, t, v, k).addr, Index(g, k, v)) := d])
  {
    hide PlaceOk, Blocks, Read, HasPath, TableAt, Slot, OutsideSame, Index, OnlyWithin;
    var s := TableAt(g, g.startLevel, t, v, k);
    TableAtBlocks(g, g.startLevel, t, v, k);
    SlotInside(g, k, s, Index(g, k, v));
    OneStore(OwnBlock(g, k, s), mem, Slot(s.addr, Index(g, k, v)), d);
    OutsideWithin(Blocks(g, g.startLevel, t), OwnBlock(g, k, s), mem, mem[Slot(s.addr, Index(g, k, v)) := d]);
  }

  /** What the memory and the tree are when `t` is sound and stored. */
  ghost predicate Stored(g: Geometry, t: Table, pool: Pool, mem: Memory)
  {
    Sound(g, t, pool) && Rep(g, g.startLevel, t, mem)
  }

  /** Clearing a fresh table and writing the descriptor that links it. */
  lemma LinkTable(g: Geometry, t: Table, v: nat, j: nat, pool: Pool, mem: Memory, mem': Memory)
    requires Stored(g, t, pool, mem) && j < MAX_LEVEL && HasPath(g, g.startLevel, t, v, j)
    requires AtLevel(g, j) && !EntryAt(g, g.startLevel, t, v, j).Sub? && NewTable(g, j + 1, pool).0.Some?
    requires var s := NewTable(g, j + 1, pool).0.value;
             Rep(g, j + 1, s, mem') && OnlyWithin(mem, mem', s.addr, TableBytes(g, j + 1))
    ensures var (s, pool') := NewTable(g, j + 1, pool);
            var u := SetEntry(g, g.startLevel, t, v, j, Sub(s.value));
            var last := mem'[Slot(TableAt(g, g.startLevel, t, v, j).addr, Index(g, j, v)) := TableDesc(s.value.addr)];
            && Stored(g, u, pool', last) && Blocks(g, g.startLevel, t) <= Blocks(g, g.startLevel, u)
            && OutsideSame(Blocks(g, g.startLevel, u), mem, last)
  {
    hide Tiling, PlaceOk, Index, NewTable, Blocks, NoSharing, Rep, HasPath, TableBytes, OnlyWithin, Read, SetEntry,
      AllApart, OutsideSame, Slot;
    var (s, pool') := NewTable(g, j + 1, pool);
    EmptyTableBlocks(g, j + 1, s.value);
    AllApartLive(pool');
    assert OwnBlock(g, j + 1, s.value) == Block(s.value.addr, TableBytes(g, j + 1));
    FreshSameOn(Blocks(g, g.startLevel, t), pool'.live, OwnBlock(g, j + 1, s.value), mem, mem');
    RepFrame(g, g.startLevel, t, mem, mem');
    NoBlocksInLeaf(g, j, EntryAt(g, g.startLevel, t, v, j));
    SetEntryBlocks(g, g.startLevel, t, v, j, Sub(s.value));
    RepWrite(g, g.startLevel, t, v, j, Sub(s.value), mem', pool'.live);
    var u := SetEntry(g, g.startLevel, t, v, j, Sub(s.value));
    StoreInside(g, t, v, j, mem', TableDesc(s.value.addr));
    OutsideWithin(Blocks(g, g.startLevel, u), OwnBlock(g, j + 1, s.value), mem, mem');
    Widen(Blocks(g, g.startLevel, t), Blocks(g, g.startLevel, u), mem',
          mem'[Slot(TableAt(g, g.startLevel, t, v, j).addr, Index(g, j, v)) := TableDesc(s.value.addr)]);
    OutsideTrans(Blocks(g, g.startLevel, u), Blocks(g, g.startLevel, u), mem, mem',
                 mem'[Slot(TableAt(g, g.startLevel, t, v, j).addr, Index(g, j, v)) := TableDesc(s.value.addr)]);
  }

  lemma Widen(blocks: set<Block>, more: set<Block>, mem: Memory, mem': Memory)
    requires blocks <= more && OutsideSame(blocks, mem, mem')
    ensures OutsideSame(more, mem, mem')
  {
    OutsideSelf(blocks, mem);
    hide Read;
    forall a
      ensures Inside(more, a) || Read(mem', a) == Read(mem, a)
    {
      if b :| b in blocks && b.Covers(a) {
        assert b in more;
      }
    }
  }

  lemma OutsideSelf(blocks: set<Block>, mem: Memory)
    ensures OutsideSame(blocks, mem, mem)
  {
  }

  lemma NoBlocksInLeaf(g: Geometry, l: nat, e: Entry)
    requires EntryWF(g, l, e) && !e.Sub?
    ensures EntryBlocks(g, l, e) == {}
  {
  }

  lemma FreshTableRep(g: Geometry, l: nat, addr: u32, mem: Memory)
    requires Known(g) && AtLevel(g, l) && WF(g, l, EmptyTable(g, l, addr))
    requires forall i | 0 <= i < Entries(g, l) :: Read(mem, Slot(addr, i)) == INVALID_DESC
    ensures Rep(g, l, EmptyTable(g, l, addr), mem)
  {
    hide PlaceOk, Entries;
  }

  /** Writing a descriptor without a table below it. */
  lemma PlainWrite(g: Geometry, t: Table, v: nat, k: nat, e: Entry, pool: Pool, mem: Memory)
    requires Stored(g, t, pool, mem) && HasPath(g, g.startLevel, t, v, k) && EntryWF(g, k, e) && !e.Sub?
    ensures var u := SetEntry(g, g.startLevel, t, v, k, e);
            var mem' := mem[Slot(TableAt(g, g.startLevel, t, v, k).addr, Index(g, k, v)) := Enc(k, e)];
            && Stored(g, u, pool, mem') && HasPath(g, g.startLevel, u, v, k)
            && Blocks(g, g.startLevel, u) <= Blocks(g, g.startLevel, t)
            && (!EntryAt(g, g.startLevel, t, v, k).Sub? ==> Blocks(g, g.startLevel, u) == Blocks(g, g.startLevel, t))
            && OutsideSame(Blocks(g, g.startLevel, t), mem, mem')
  {
    hide Tiling, PlaceOk, Index, Blocks, NoSharing, Rep, HasPath, SetEntry, AllApart, OutsideSame, TableAt;
    PathParts(g, g.startLevel, t, v, k);
    StoreInside(g, t, v, k, mem, Enc(k, e));
    if !EntryAt(g, g.startLevel, t, v, k).Sub? {
      NoBlocksInLeaf(g, k, EntryAt(g, g.startLevel, t, v, k));
    }
    AllApartLive(pool);
    NoBlocksInLeaf(g, k, e);
    SetEntryBlocks(g, g.startLevel, t, v, k, e);
    RepWrite(g, g.startLevel, t, v, k, e, mem, pool.live);
    SamePathStays(g, t, v, k, e);
  }

  lemma SamePathStays(g: Geometry, t: Table, v: nat, k: nat, e: Entry)
    requires WF(g, g.startLevel, t) && HasPath(g, g.startLevel, t, v, k) && EntryWF(g, k, e)
    ensures HasPath(g, g.startLevel, SetEntry(g, g.startLevel, t, v, k, e), v, k)
  {
    hide Index, PlaceOk, SetEntry;
    ShorterPath(g, g.startLevel, t, v, k, k);
    PathAfterSet(g, g.startLevel, t, v, k, e, k);
  }

  /** The descriptor in memory at the end of a path. */
  lemma {:induction false} ReadEntry(g: Geometry, l: nat, t: Table, v: nat, k: nat, mem: Memory)
    requires WF(g, l, t) && Rep(g, l, t, mem) && HasPath(g, l, t, v, k)
    ensures Read(mem, Slot(TableAt(g, l, t, v, k).addr, Index(g, k, v))) == Enc(k, EntryAt(g, l, t, v, k))
    ensures Rep(g, k, TableAt(g, l, t, v, k), mem)
    decreases t
  {
    hide Index, PlaceOk, Enc, Read, Slot;
    if l < k {
      ReadEntry(g, l + 1, t.ents[Index(g, l, v)].t, v, k, mem);
    }
  }

  /** Where a walk went: the table and index at one level. */
  datatype WalkStep = WalkStep(pt: u32, index: nat)

  ghost predicate Steps(g: Geometry, t: Table, v: nat, level: nat, walk: seq<WalkStep>)
    requires WF(g, g.startLevel, t) && |walk| == MAX_LEVEL + 1
  {
    forall j | g.startLevel <= j < level && j <= MAX_LEVEL ::
      HasPath(g, g.startLevel, t, v, j) && walk[j] == WalkStep(TableAt(g, g.startLevel, t, v, j).addr, Index(g, j, v))
  }

  /** A descriptor write at or below the last step moves no table on the path. */
  lemma StepsStay(g: Geometry, t: Table, v: nat, k: nat, e: Entry, level: nat, walk: seq<WalkStep>)
    requires WF(g, g.startLevel, t) && |walk| == MAX_LEVEL + 1 && Steps(g, t, v, level, walk)
    requires HasPath(g, g.startLevel, t, v, k) && EntryWF(g, k, e) && level <= k + 1
    ensures Steps(g, SetEntry(g, g.startLevel, t, v, k, e), v, level, walk)
  {
    hide Index, PlaceOk, SetEntry, HasPath, TableAt;
    forall j | g.startLevel <= j < level && j <= MAX_LEVEL
      ensures var u := SetEntry(g, g.startLevel, t, v, k, e);
              && HasPath(g, g.startLevel, u, v, j)
              && TableAt(g, g.startLevel, u, v, j).addr == TableAt(g, g.startLevel, t, v, j).addr
    {
      ShorterPath(g, g.startLevel, t, v, k, j);
      PathAfterSet(g, g.startLevel, t, v, k, e, j);
    }
  }

  /** Unlinking an empty table: what is left is stored and sound, with the table's block in use
      and also once it has been given back. */
  lemma Unlink(g: Geometry, t: Table, v: nat, j: nat, pool: Pool, mem: Memory)
    requires Stored(g, t, pool, mem) && HasPath(g, g.startLevel, t, v, j) && g.startLevel < j
    requires !NonEmpty(TableAt(g, g.startLevel, t, v, j))
    ensures HasPath(g, g.startLevel, t, v, j - 1)
    ensures var s, u := TableAt(g, g.startLevel, t, v, j), SetEntry(g, g.startLevel, t, v, j - 1, Invalid);
            var mem' := mem[Slot(TableAt(g, g.startLevel, t, v, j - 1).addr, Index(g, j - 1, v)) := INVALID_DESC];
            && Stored(g, u, pool, mem') && HasPath(g, g.startLevel, u, v, j - 1)
            && Rep(g, j, s, mem') && NoSharing(g, j, s) && Blocks(g, j, s) <= pool.live
            && Stored(g, u, pool.Give(OwnBlock(g, j, s)).1, mem')
            && Blocks(g, g.startLevel, u) <= Blocks(g, g.startLevel, t)
            && OutsideSame(Blocks(g, g.startLevel, t), mem, mem')
  {
    hide Tiling, PlaceOk, Index, Blocks, NoSharing, Rep, HasPath, SetEntry, AllApart, TableAt, Pool.Give, Slot,
      OutsideSame;
    var s := TableAt(g, g.startLevel, t, v, j);
    var above := Above(g, t, v, j);
    PlainWrite(g, t, v, j - 1, Invalid, pool, mem);
    TableAtBlocks(g, g.startLevel, t, v, j);
    EmptyOwnsOne(g, j, s);
    SetEntryBlocks(g, g.startLevel, t, v, j - 1, Invalid);
    pool.GiveSafe(OwnBlock(g, j, s));
    ReadEntry(g, g.startLevel, t, v, j, mem);
    AllApartLive(pool);
    SlotInside(g, j - 1, above, Index(g, j - 1, v));
    OutsideOthers(pool.live, OwnBlock(g, j - 1, above), Blocks(g, j, s), mem, Slot(above.addr, Index(g, j - 1, v)),
        INVALID_DESC);
    RepFrame(g, j, s, mem, mem[Slot(above.addr, Index(g, j - 1, v)) := INVALID_DESC]);
  }

  /** The table one level up, whose entry leads to the level-`j` table and which is not below
      it. */
  lemma Above(g: Geometry, t: Table, v: nat, j: nat) returns (above: Table)
    requires Known(g) && WF(g, g.startLevel, t) && NoSharing(g, g.startLevel, t)
    requires HasPath(g, g.startLevel, t, v, j) && g.startLevel < j
    ensures HasPath(g, g.startLevel, t, v, j - 1) && above == TableAt(g, g.startLevel, t, v, j - 1)
    ensures WF(g, j - 1, above) && Index(g, j - 1, v) < |above.ents|
    ensures EntryAt(g, g.startLevel, t, v, j - 1) == Sub(TableAt(g, g.startLevel, t, v, j))
    ensures OwnBlock(g, j - 1, above) in Blocks(g, g.startLevel, t)
    ensures OwnBlock(g, j - 1, above) !in Blocks(g, j, TableAt(g, g.startLevel, t, v, j))
  {
    hide PlaceOk, Index, Blocks, HasPath, TableAt;
    ShorterPath(g, g.startLevel, t, v, j, j - 1);
    above := TableAt(g, g.startLevel, t, v, j - 1);
    LongerPath(g, g.startLevel, t, v, j - 1);
    TableAtBlocks(g, g.startLevel, t, v, j - 1);
    var i := Index(g, j - 1, v);
    assert OwnBlock(g, j - 1, above) !in EntryBlocks(g, j - 1, above.ents[i]);
  }
}
