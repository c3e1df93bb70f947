/** What the table walker makes of memory before and after the driver's calls. */
module MmuHardware {
  import opened Words
  import opened MmuGeometry
  import opened MmuTree
  import opened MmuMap
  import opened MmuRefine
  import opened MmuTables
  import opened MmuUnmap
  import opened MmuRestore
  import opened MmuExact
  import opened MmuMemory
  import opened MmuSteps
  import opened MmuRun
  import opened Balloc

  /** The physical address the SMMU puts out for `x`, from the root table at `root`. */
  ghost function HwTranslate(g: Geometry, mem: Memory, root: int, x: nat): Option<nat>
    requires g.startLevel <= MAX_LEVEL
  {
    match HwWalk(g, g.startLevel, mem, root, x)
    case None => None
    case Some(h) => Some(Output(g, h, x))
  }

  lemma StoredGives(g: Geometry, t: Table, pool: Pool, mem: Memory)
    requires Stored(g, t, pool, mem)
    ensures Sound(g, t, pool) && Known(g) && WF(g, g.startLevel, t) && pool.Valid()
  {
  }

  lemma HwSeesTree(g: Geometry, t: Table, pool: Pool, mem: Memory, x: nat)
    requires Stored(g, t, pool, mem)
    ensures g.startLevel <= MAX_LEVEL && HwTranslate(g, mem, t.addr, x) == Translate(g, t, x)
  {
    hide Output;
    HwWalkIsLookup(g, g.startLevel, t, mem, x);
  }

  /** `mmu_map` of an unmapped, congruent region with tables enough, as the hardware sees it in
      memory: it succeeds, with `p + k` at `v + k` and nothing else changed. */
  lemma MapOnHardware(g: Geometry, t: Table, pool: Pool, mem: Memory, mem': Memory, v: nat, p: nat, sz: nat, x: nat)
    requires Stored(g, t, pool, mem) && Pruned(t) && MapArgs(g, v, p, sz) && OnPage(g, v) && Unmapped(g, t, v, sz)
    requires TablesSuffice(g, t, v, sz, pool) && Congruent(g, v, p, sz) && x < WORD
    requires var m := MapAll(g, t, v, p, sz, pool); Stored(g, m.t, m.pool, mem')
    ensures g.startLevel <= MAX_LEVEL && MapAll(g, t, v, p, sz, pool).rc == Mapped
    ensures HwTranslate(g, mem', t.addr, x)
            == if v <= x < v + sz then Some(p + (x - v)) else HwTranslate(g, mem, t.addr, x)
  {
    hide HwTranslate, Translate, MapAll, Stored, Rep, Pruned, PageSize, Congruent, Unmapped, WF, Tiling, TablesSuffice;
    StoredGives(g, t, pool, mem);
    var m := MapAll(g, t, v, p, sz, pool);
    HwSeesTree(g, t, pool, mem, x);
    HwSeesTree(g, m.t, m.pool, mem', x);
    MapTranslates(g, t, v, p, sz, pool, x);
  }

  /** `mmu_unmap` of it: it succeeds when there is a free slot for every table to be returned,
      and whenever it does the hardware translates as it did before the map. */
  lemma UnmapOnHardware(g: Geometry, t: Table, pool: Pool, mem: Memory, mem': Memory, v: nat, p: nat, sz: nat, x: nat)
    requires Stored(g, t, pool, mem) && Pruned(t) && MapArgs(g, v, p, sz) && OnPage(g, v) && Unmapped(g, t, v, sz)
    requires TablesSuffice(g, t, v, sz, pool)
    requires var m := MapAll(g, t, v, p, sz, pool); WholePages(g, v, sz) && Known(g) && WF(g, g.startLevel, m.t)
    requires var m := MapAll(g, t, v, p, sz, pool);
             var r := UnmapAll(g, m.t, v, sz, m.pool);
             Stored(g, r.t, r.pool, mem')
    ensures var m := MapAll(g, t, v, p, sz, pool);
            var r := UnmapAll(g, m.t, v, sz, m.pool);
            && g.startLevel <= MAX_LEVEL && m.rc == Mapped
            && (Unused(m.pool.fb) >= |Needs(g, t, v, sz)| ==> r.rc == Removed)
            && (r.rc == Removed ==> HwTranslate(g, mem', t.addr, x) == HwTranslate(g, mem, t.addr, x))
  {
    hide HwTranslate, Translate, MapAll, UnmapAll, Stored, Rep, Pruned, PageSize, Unmapped, WF, Tiling, TablesSuffice,
      Needs, Unused;
    StoredGives(g, t, pool, mem);
    HwSeesTree(g, t, pool, mem, x);
    UnmapRestores(g, t, v, p, sz, pool);
    var m := MapAll(g, t, v, p, sz, pool);
    var r := UnmapAll(g, m.t, v, sz, m.pool);
    if r.rc == Removed {
      HwSeesTree(g, t, r.pool, mem', x);
    }
  }

  /** Changes confined to some live blocks leave a context whose tables are other live blocks
      as it was: contexts that share an allocator and memory do not disturb each other. */
  lemma Isolated(g: Geometry, t: Table, pool: Pool, mem: Memory, touched: set<Block>, all: set<Block>, pool': Pool,
        mem': Memory)
    requires Stored(g, t, pool, mem) && pool'.Valid() && Blocks(g, g.startLevel, t) <= pool'.live
    requires AllApart(all) && touched <= all && Blocks(g, g.startLevel, t) <= all
             && touched !! Blocks(g, g.startLevel, t)
    requires OutsideSame(touched, mem, mem')
    ensures Stored(g, t, pool', mem')
  {
    hide Tiling, Rep, NoSharing, Blocks, WF, Read;
    forall b, a | b in Blocks(g, g.startLevel, t) && b.addr <= a < b.addr + b.size
      ensures Read(mem', a) == Read(mem, a)
    {
      forall c | c in touched
        ensures !c.Covers(a)
      {
        assert b != c && b.Apart(c);
      }
      assert !Inside(touched, a);
    }
    RepFrame(g, g.startLevel, t, mem, mem');
  }

  /** A map in one context, whatever its outcome, leaves another context's tables intact. */
  lemma MapLeavesOthers(g: Geometry, t: Table, pool: Pool, v: nat, p: nat, sz: nat, h: Geometry, u: Table, mem: Memory,
        mem': Memory)
    requires Sound(g, t, pool) && MapArgs(g, v, p, sz)
    requires Stored(h, u, pool, mem) && Blocks(h, h.startLevel, u) <= Others(g, t, pool)
    requires OutsideSame(Blocks(g, g.startLevel, MapAll(g, t, v, p, sz, pool).t), mem, mem')
    ensures var m := MapAll(g, t, v, p, sz, pool);
            Stored(h, u, m.pool, mem') && Blocks(h, h.startLevel, u) <= Others(g, m.t, m.pool)
  {
    hide Tiling, Rep, NoSharing, Blocks, WF, MapAll, MapArgs, OutsideSame;
    MapKeepsSound(g, t, v, p, sz, pool);
    var m := MapAll(g, t, v, p, sz, pool);
    AllApartLive(m.pool);
    Isolated(h, u, pool, mem, Blocks(g, g.startLevel, m.t), m.pool.live, m.pool, mem');
  }

  /** So does an unmap. */
  lemma UnmapLeavesOthers(g: Geometry, t: Table, pool: Pool, v: nat, sz: nat, h: Geometry, u: Table, mem: Memory,
        mem': Memory)
    requires Sound(g, t, pool) && WholePages(g, v, sz)
    requires Stored(h, u, pool, mem) && Blocks(h, h.startLevel, u) <= Others(g, t, pool)
    requires OutsideSame(Blocks(g, g.startLevel, t), mem, mem')
    ensures var m := UnmapAll(g, t, v, sz, pool);
            Stored(h, u, m.pool, mem') && Blocks(h, h.startLevel, u) <= Others(g, m.t, m.pool)
  {
    hide Tiling, Rep, NoSharing, Blocks, WF, UnmapAll, WholePages, OutsideSame;
    UnmapKeepsSound(g, t, v, sz, pool);
    var m := UnmapAll(g, t, v, sz, pool);
    AllApartLive(pool);
    Isolated(h, u, pool, mem, Blocks(g, g.startLevel, t), pool.live, m.pool, mem');
  }
}
