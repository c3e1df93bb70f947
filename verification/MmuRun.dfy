/** Whole runs of maps and unmaps. */
module MmuRun {
  import opened Words
  import opened Bits
  import opened MmuGeometry
  import opened MmuTree
  import opened MmuMap
  import opened MmuRefine
  import opened MmuTables
  import opened MmuUnmap
  import opened MmuRestore
  import opened Balloc

  /** What is live besides the tree's own blocks. */
  ghost function Others(g: Geometry, t: Table, pool: Pool): set<Block>
    requires WF(g, g.startLevel, t)
  {
    pool.live - Blocks(g, g.startLevel, t)
  }

  lemma {:induction false} MapKeepsSound(g: Geometry, t: Table, v: nat, p: nat, sz: nat, pool: Pool)
    requires Sound(g, t, pool) && MapArgs(g, v, p, sz)
    ensures var r := MapAll(g, t, v, p, sz, pool);
            Sound(g, r.t, r.pool) && Others(g, r.t, r.pool) == Others(g, t, pool)
    decreases sz
  {
    hide BlockSize, PageSize, Aligned, ChunkLevel, WF, Tiling, NoSharing, Blocks, MapPiece, MapAll, Sound;
    SoundParts(g, t, pool);
    var k := ChunkLevel(g, g.startLevel, v, sz);
    var b := BlockSize(g, k);
    ChunkFits(g, v, sz);
    PieceKeepsSound(g, t, v, p, k, pool);
    MapAllStep(g, t, v, p, sz, pool, k, b);
    var r := MapPiece(g, t, v, p, k, pool);
    SameOthers(g, t, pool, r.t, r.pool);
    if r.rc == Mapped && b < sz {
      MapKeepsSound(g, r.t, v + b, p + b, sz - b, r.pool);
    }
  }

  lemma SameOthers(g: Geometry, t: Table, pool: Pool, u: Table, pool': Pool)
    requires WF(g, g.startLevel, t) && WF(g, g.startLevel, u) && pool.live <= pool'.live
    requires Blocks(g, g.startLevel, u) == Blocks(g, g.startLevel, t) + (pool'.live - pool.live)
    requires Blocks(g, g.startLevel, t) <= pool.live
    ensures Others(g, u, pool') == Others(g, t, pool)
  {
    hide Blocks, WF;
  }

  /** The same for an unmap of anything: a table whose free failed stays live, and no block
      outside the tree is given back. */
  lemma UnmapPieceKeepsSound(g: Geometry, t: Table, v: nat, k: nat, pool: Pool)
    requires Sound(g, t, pool) && AtLevel(g, k)
    ensures var r := UnmapPiece(g, t, v, k, pool);
            && Sound(g, r.t, r.pool) && r.pool.live <= pool.live
            && Blocks(g, g.startLevel, r.t) <= Blocks(g, g.startLevel, t)
            && pool.live - r.pool.live <= Blocks(g, g.startLevel, t) - Blocks(g, g.startLevel, r.t)
  {
    hide Index, PlaceOk, Blocks, NoSharing, Tiling, BackWalk, SetEntry, HasPath;
    if HasPath(g, g.startLevel, t, v, k) && !EntryAt(g, g.startLevel, t, v, k).Invalid? {
      PathAfterSet(g, g.startLevel, t, v, k, Invalid, k);
      SetEntryBlocks(g, g.startLevel, t, v, k, Invalid);
      BackWalkBlocks(g, g.startLevel, SetEntry(g, g.startLevel, t, v, k, Invalid), v, k, pool);
    }
  }

  lemma {:induction false} UnmapKeepsSound(g: Geometry, t: Table, v: nat, sz: nat, pool: Pool)
    requires Sound(g, t, pool) && WholePages(g, v, sz)
    ensures var r := UnmapAll(g, t, v, sz, pool);
            Sound(g, r.t, r.pool) && Others(g, t, pool) <= Others(g, r.t, r.pool)
    decreases sz
  {
    hide BlockSize, PageSize, Aligned, ChunkLevel, WF, Tiling, NoSharing, Blocks, UnmapPiece, UnmapAll, Sound;
    SoundParts(g, t, pool);
    var k := ChunkLevel(g, g.startLevel, v, sz);
    var b := BlockSize(g, k);
    ChunkFits(g, v, sz);
    UnmapPieceKeepsSound(g, t, v, k, pool);
    UnmapAllStep(g, t, v, sz, pool, k, b);
    var r := UnmapPiece(g, t, v, k, pool);
    assert Others(g, t, pool) <= Others(g, r.t, r.pool) by {
      Remainder(pool.live, Blocks(g, g.startLevel, t), r.pool.live, Blocks(g, g.startLevel, r.t));
    }
    if r.rc == Removed && b < sz {
      UnmapKeepsSound(g, r.t, v + b, sz - b, r.pool);
    }
  }

  /** A region mapped by one call. */
  datatype Region = Region(v: nat, p: nat, sz: nat) {
    predicate Has(x: nat) { v <= x < v + sz }
    predicate Apart(o: Region) { v + sz <= o.v || o.v + o.sz <= v }
    predicate Fits(g: Geometry) { MapArgs(g, v, p, sz) && OnPage(g, v) }
  }

  /** A context in use: its tree, the allocator, and the regions mapped and not unmapped. */
  datatype Space = Space(t: Table, pool: Pool, regions: set<Region>)

  datatype Op = MapOp(r: Region) | UnmapOp(r: Region)

  /** A successful map of a region apart from all mapped ones, or a successful unmap of a
      mapped region. */
  ghost predicate Step(g: Geometry, s: Space, op: Op, s': Space)
  {
    && Known(g) && WF(g, g.startLevel, s.t) && s.pool.Valid() && op.r.Fits(g)
    && match op
       case MapOp(r) =>
         var m := MapAll(g, s.t, r.v, r.p, r.sz, s.pool);
         && (forall o | o in s.regions :: r.Apart(o))
         && m.rc == Mapped && s' == Space(m.t, m.pool, s.regions + {r})
       case UnmapOp(r) =>
         var m := UnmapAll(g, s.t, r.v, r.sz, s.pool);
         && r in s.regions
         && m.rc == Removed && s' == Space(m.t, m.pool, s.regions - {r})
  }

  ghost predicate Separate(g: Geometry, regions: set<Region>)
  {
    && (forall r | r in regions :: r.Fits(g))
    && (forall r, o | r in regions && o in regions && r != o :: r.Apart(o))
  }

  /** The tree translates the regions as mapped, and nothing else. */
  ghost predicate Means(g: Geometry, t: Table, regions: set<Region>)
    requires Known(g) && WF(g, g.startLevel, t) && Separate(g, regions)
  {
    && (forall r | r in regions :: r.Fits(g) && Holds(g, t, r.v, r.p, r.sz))
    && (forall x: nat | x < WORD && (forall r | r in regions :: !r.Has(x)) :: LookupRoot(g, t, x).None?)
  }

  /** The invariant of a run that began with the tree `t0` mapping nothing. */
  ghost predicate Running(g: Geometry, t0: Table, others: set<Block>, s: Space)
  {
    && Sound(g, s.t, s.pool) && Pruned(s.t) && Separate(g, s.regions) && Means(g, s.t, s.regions)
    && Extends(t0, s.t) && Others(g, s.t, s.pool) == others
  }

  /** A context as `mmu_context_create` leaves it. */
  ghost predicate Fresh(g: Geometry, t0: Table, pool: Pool)
  {
    Sound(g, t0, pool) && t0 == EmptyTable(g, g.startLevel, t0.addr)
  }

  lemma FreshRuns(g: Geometry, t0: Table, pool: Pool)
    requires Fresh(g, t0, pool)
    ensures Running(g, t0, pool.live - {OwnBlock(g, g.startLevel, t0)}, Space(t0, pool, {}))
  {
    EmptyTableBlocks(g, g.startLevel, t0);
    ExtendsSelf(t0);
  }

  lemma FreshMapsNothing(g: Geometry, t0: Table, pool: Pool, v: nat, sz: nat)
    requires Fresh(g, t0, pool)
    ensures Unmapped(g, t0, v, sz) && Pruned(t0)
  {
  }

  /** The part of the invariant that says what the tree means. */
  lemma MeansAfterMap(g: Geometry, t: Table, u: Table, regions: set<Region>, r: Region)
    requires Known(g) && WF(g, g.startLevel, t) && WF(g, g.startLevel, u) && r.Fits(g)
    requires Separate(g, regions) && Means(g, t, regions) && forall o | o in regions :: r.Apart(o)
    requires Adds(g, t, u, r.v, r.p, r.sz)
    ensures Separate(g, regions + {r}) && Means(g, u, regions + {r})
  {
    hide WF, RegionHit, LookupRoot, PageSize;
    forall o | o in regions + {r}
      ensures o.Fits(g) && Holds(g, u, o.v, o.p, o.sz)
    {
      if o != r {
        assert Holds(g, t, o.v, o.p, o.sz);
      }
    }
    forall x: nat | x < WORD && (forall o | o in regions + {r} :: !o.Has(x))
      ensures LookupRoot(g, u, x).None?
    {
      assert r in regions + {r};
      assert forall o | o in regions :: o in regions + {r};
    }
  }

  lemma MeansAfterUnmap(g: Geometry, t: Table, u: Table, regions: set<Region>, r: Region)
    requires Known(g) && WF(g, g.startLevel, t) && WF(g, g.startLevel, u) && r in regions
    requires Separate(g, regions) && Means(g, t, regions) && Removes(g, t, u, r.v, r.sz)
    ensures Separate(g, regions - {r}) && Means(g, u, regions - {r})
  {
    hide WF, RegionHit, LookupRoot, PageSize;
    forall o | o in regions - {r}
      ensures o.Fits(g) && Holds(g, u, o.v, o.p, o.sz)
    {
      assert Holds(g, t, o.v, o.p, o.sz) && r.Apart(o);
    }
    forall x: nat | x < WORD && (forall o | o in regions - {r} :: !o.Has(x))
      ensures LookupRoot(g, u, x).None?
    {
      if !r.Has(x) {
        assert forall o | o in regions :: o != r ==> o in regions - {r};
      }
    }
  }

  lemma FreeForMap(g: Geometry, t: Table, regions: set<Region>, r: Region)
    requires Known(g) && WF(g, g.startLevel, t) && r.Fits(g)
    requires Separate(g, regions) && Means(g, t, regions) && forall o | o in regions :: r.Apart(o)
    ensures Unmapped(g, t, r.v, r.sz)
  {
    hide WF, RegionHit, LookupRoot, PageSize;
  }

  /** Every step keeps the invariant. */
  lemma StepRuns(g: Geometry, t0: Table, pool0: Pool, s: Space, op: Op, s': Space)
    requires Fresh(g, t0, pool0) && Step(g, s, op, s')
    requires Running(g, t0, pool0.live - {OwnBlock(g, g.startLevel, t0)}, s)
    ensures Running(g, t0, pool0.live - {OwnBlock(g, g.startLevel, t0)}, s')
  {
    hide WF, Tiling, NoSharing, Blocks, Pruned, Extends, RegionHit, LookupRoot, PageSize, BlockSize, MapAll, UnmapAll,
      OwnBlock, Means, Separate, Fresh, Removes, Adds, Unused, OnPage;
    SoundParts(g, s.t, s.pool);
    var r := op.r;
    match op
    case MapOp(_) =>
      var m := MapAll(g, s.t, r.v, r.p, r.sz, s.pool);
      FreeForMap(g, s.t, s.regions, r);
      MapRefines(g, s.t, r.v, r.p, r.sz, s.pool);
      MeansAfterMap(g, s.t, m.t, s.regions, r);
      SameOthers(g, s.t, s.pool, m.t, m.pool);
      ExtendsTrans(t0, s.t, m.t);
    case UnmapOp(_) =>
      var m := UnmapAll(g, s.t, r.v, r.sz, s.pool);
      FreshMapsNothing(g, t0, pool0, r.v, r.sz);
      FreshParts(g, t0, pool0);
      MeansHolds(g, s.t, s.regions, r);
      UnmapRefines(g, t0, s.t, r.v, r.p, r.sz, s.pool);
      MeansAfterUnmap(g, s.t, m.t, s.regions, r);
      ShedOthers(g, s.t, s.pool, m.t, m.pool);
  }

  /** In a run, a region apart from all mapped ones can be mapped exactly when there are tables
      enough. */
  lemma CanMap(g: Geometry, t0: Table, others: set<Block>, s: Space, r: Region)
    requires Running(g, t0, others, s) && r.Fits(g) && forall o | o in s.regions :: r.Apart(o)
    ensures (exists s' :: Step(g, s, MapOp(r), s')) <==> TablesSuffice(g, s.t, r.v, r.sz, s.pool)
  {
    hide WF, Tiling, NoSharing, Blocks, Pruned, Extends, LookupRoot, PageSize, MapAll, Means, Separate, Adds, OnPage,
      TablesSuffice, Unmapped, Needs;
    FreeForMap(g, s.t, s.regions, r);
    MapExact(g, s.t, r.v, r.p, r.sz, s.pool);
    var m := MapAll(g, s.t, r.v, r.p, r.sz, s.pool);
    if m.rc == Mapped {
      assert Step(g, s, MapOp(r), Space(m.t, m.pool, s.regions + {r}));
    }
  }

  lemma FreshParts(g: Geometry, t0: Table, pool: Pool)
    requires Fresh(g, t0, pool)
    ensures WF(g, g.startLevel, t0)
  {
  }

  lemma MeansHolds(g: Geometry, t: Table, regions: set<Region>, r: Region)
    requires Known(g) && WF(g, g.startLevel, t) && Separate(g, regions) && Means(g, t, regions) && r in regions
    ensures r.Fits(g) && Holds(g, t, r.v, r.p, r.sz)
  {
  }

  lemma ShedOthers(g: Geometry, t: Table, pool: Pool, w: Table, pool': Pool)
    requires Sound(g, t, pool) && Shed(g, t, pool, w, pool')
    ensures Others(g, w, pool') == Others(g, t, pool)
  {
    hide WF, Tiling, NoSharing, Blocks;
    Remainder(pool.live, Blocks(g, g.startLevel, t), pool'.live, Blocks(g, g.startLevel, w));
  }

  lemma Remainder<T>(live: set<T>, own: set<T>, live': set<T>, own': set<T>)
    requires own <= live && own' <= own && live' <= live && live - live' <= own - own'
    ensures live - own <= live' - own'
    ensures live - live' == own - own' ==> live - own == live' - own'
  {
    forall b | b in live - own
      ensures b in live' - own'
    {
      assert b !in live - live';
    }
    if live - live' == own - own' {
      forall b | b in live' - own'
        ensures b in live - own
      {
        assert b !in own - own';
      }
    }
  }

  ghost predicate Follows(g: Geometry, s: Space, s': Space)
  {
    exists op :: Step(g, s, op, s')
  }

  /** A run: every space but the first follows from the one before by some operation. */
  ghost predicate Run(g: Geometry, trace: seq<Space>)
  {
    && |trace| > 0
    && forall i, j | 0 <= i < j < |trace| && j == i + 1 :: Follows(g, trace[i], trace[j])
  }

  /** Over every run of disjoint maps and matching unmaps: no sharing, tables in live blocks,
      every table below the root in use, and exactly the mapped regions translated. */
  lemma {:induction false} RunsAreSound(g: Geometry, t0: Table, pool0: Pool, trace: seq<Space>)
    requires Fresh(g, t0, pool0) && Run(g, trace) && trace[0] == Space(t0, pool0, {})
    ensures Running(g, t0, pool0.live - {OwnBlock(g, g.startLevel, t0)}, trace[|trace| - 1])
    decreases |trace|
  {
    hide Running, Step, Fresh, OwnBlock;
    FreshParts(g, t0, pool0);
    var n := |trace| - 1;
    if n == 0 {
      FreshRuns(g, t0, pool0);
    } else {
      RunsAreSound(g, t0, pool0, trace[..n]);
      assert Follows(g, trace[n - 1], trace[n]);
      var op :| Step(g, trace[n - 1], op, trace[n]);
      StepRuns(g, t0, pool0, trace[n - 1], op, trace[n]);
    }
  }

  /** When everything has been unmapped, in whatever order, the root table is as created and
      the same blocks are live as then. */
  lemma RunsConserve(g: Geometry, t0: Table, pool0: Pool, trace: seq<Space>)
    requires Fresh(g, t0, pool0) && Run(g, trace) && trace[0] == Space(t0, pool0, {})
    requires trace[|trace| - 1].regions == {}
    ensures trace[|trace| - 1].t == t0 && trace[|trace| - 1].pool.live == pool0.live
  {
    hide Follows, Tiling, NoSharing, Blocks, Pruned, Extends, WF, Lookup, PlaceOk, BlockSize;
    RunsAreSound(g, t0, pool0, trace);
    var s := trace[|trace| - 1];
    FreshMapsNothing(g, t0, pool0, 0, WORD);
    assert SameMaps(g, g.startLevel, t0, s.t, 0) by {
      forall x: nat | x < WORD
        ensures Lookup(g, g.startLevel, t0, x) == Lookup(g, g.startLevel, s.t, x)
      {
        assert LookupRoot(g, t0, x).None?;
        assert LookupRoot(g, s.t, x).None?;
      }
    }
    SameMapsSameTree(g, g.startLevel, t0, s.t, 0);
    EmptyTableBlocks(g, g.startLevel, t0);
    assert s.pool.live == Others(g, s.t, s.pool) + {OwnBlock(g, g.startLevel, t0)};
  }
}
