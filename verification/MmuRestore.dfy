/** Unmapping what a map added: the region is unmapped again, and the tree and the live
    blocks are back to what they were. */
module MmuRestore {
  import opened Words
  import opened Bits
  import opened MmuGeometry
  import opened MmuTree
  import opened MmuMap
  import opened MmuRefine
  import opened MmuTables
  import opened MmuUnmap
  import opened Balloc

  /** A hit is a leaf at the end of the path to its level. */
  lemma {:induction false} HitPath(g: Geometry, l: nat, t: Table, v: nat)
    requires WF(g, l, t) && Lookup(g, l, t, v).Some?
    ensures var h := Lookup(g, l, t, v).value;
            HasPath(g, l, t, v, h.level) && EntryAt(g, l, t, v, h.level) == Leaf(h.pa)
    decreases t
  {
    LookupLevel(g, l, t, v);
    var e := t.ents[Index(g, l, v)];
    if e.Sub? {
      HitPath(g, l + 1, e.t, v);
    }
  }

  /** The tree after one piece is removed and every empty table on its path unlinked. */
  ghost function Cleared(g: Geometry, t: Table, v: nat, k: nat): (w: Table)
    requires WF(g, g.startLevel, t) && HasPath(g, g.startLevel, t, v, k)
    ensures WF(g, g.startLevel, w) && w.addr == t.addr
  {
    PathAfterSet(g, g.startLevel, t, v, k, Invalid, k);
    Prune(g, g.startLevel, SetEntry(g, g.startLevel, t, v, k, Invalid), v, k)
  }

  /** Addresses of `[v, v + b)` are unmapped, all others lead where they led before. */
  ghost predicate Removes(g: Geometry, t: Table, w: Table, v: nat, b: nat)
    requires WF(g, g.startLevel, t) && WF(g, g.startLevel, w)
  {
    forall x: nat | x < WORD ::
      LookupRoot(g, w, x) == if v <= x < v + b then None else LookupRoot(g, t, x)
  }

  /** `w` is sound and exactly the blocks of the tables it lacks were given back. */
  ghost predicate Shed(g: Geometry, t: Table, pool: Pool, w: Table, pool': Pool)
    requires Sound(g, t, pool)
  {
    && Sound(g, w, pool') && Blocks(g, g.startLevel, w) <= Blocks(g, g.startLevel, t) && pool'.live <= pool.live
    && pool.live - pool'.live == Blocks(g, g.startLevel, t) - Blocks(g, g.startLevel, w)
  }

  /** Blocks `u` has beyond `t`, hence frees needed to get from one to the other. */
  ghost function Excess(g: Geometry, t: Table, u: Table): nat
    requires WF(g, g.startLevel, t) && WF(g, g.startLevel, u)
  {
    |Blocks(g, g.startLevel, u) - Blocks(g, g.startLevel, t)|
  }

  lemma ClearedLookups(g: Geometry, t: Table, v: nat, k: nat)
    requires Known(g) && AtLevel(g, k) && WF(g, g.startLevel, t) && HasPath(g, g.startLevel, t, v, k)
    requires OnBlock(g, k, v) && v + BlockSize(g, k) <= WORD
    ensures Removes(g, t, Cleared(g, t, v, k), v, BlockSize(g, k))
  {
    hide BlockSize, Index, PlaceOk, Prune;
    PathAfterSet(g, g.startLevel, t, v, k, Invalid, k);
    forall x: nat | x < WORD
      ensures LookupRoot(g, Cleared(g, t, v, k), x) ==
              if v <= x < v + BlockSize(g, k) then None else LookupRoot(g, t, x)
    {
      PathIsBlock(g, k, v, x);
      LookupSet(g, g.startLevel, t, v, k, Invalid, x);
      PruneLookup(g, g.startLevel, SetEntry(g, g.startLevel, t, v, k, Invalid), v, k, x);
    }
  }

  /** Clearing keeps the tree pruned and above any pruned tree that lacked the piece. */
  lemma ClearedShape(g: Geometry, t0: Table, t: Table, v: nat, k: nat)
    requires Known(g) && WF(g, g.startLevel, t) && HasPath(g, g.startLevel, t, v, k) && Pruned(t)
    requires WF(g, g.startLevel, t0) && Pruned(t0) && Extends(t0, t) && LookupRoot(g, t0, v).None?
    requires EntryAt(g, g.startLevel, t, v, k).Leaf?
    ensures Pruned(Cleared(g, t, v, k)) && Extends(t0, Cleared(g, t, v, k))
  {
    hide Index, PlaceOk, Prune, Pruned, Extends;
    PathAfterSet(g, g.startLevel, t, v, k, Invalid, k);
    var u := SetEntry(g, g.startLevel, t, v, k, Invalid);
    ClearedOffPath(g, g.startLevel, t, v, k);
    PruneIsPruned(g, g.startLevel, u, v, k);
    ClearedExtends(g, g.startLevel, t0, t, v, k);
    PruneExtends(g, g.startLevel, t0, u, v, k);
  }

  /** Whatever the allocator answers, the tree and the live blocks stay in step; when no free
      fails the tree is `Cleared`, and none fails with as many unused slots as frees. */
  lemma PieceFrees(g: Geometry, t: Table, v: nat, k: nat, pool: Pool)
    requires Sound(g, t, pool) && AtLevel(g, k) && HasPath(g, g.startLevel, t, v, k)
    requires EntryAt(g, g.startLevel, t, v, k).Leaf?
    ensures var r, w := UnmapPiece(g, t, v, k, pool), Cleared(g, t, v, k);
            && (r.rc == Removed ==> r.t == w && Shed(g, t, pool, w, r.pool))
            && (Unused(pool.fb) >= Excess(g, w, t) ==>
                  r.rc == Removed && Unused(r.pool.fb) + Excess(g, w, t) >= Unused(pool.fb))
  {
    hide Index, PlaceOk, Prune, Blocks, NoSharing, Tiling, BackWalk, Frees, Unused, Pool.Give, SetEntry;
    PathAfterSet(g, g.startLevel, t, v, k, Invalid, k);
    var u := SetEntry(g, g.startLevel, t, v, k, Invalid);
    SetEntryBlocks(g, g.startLevel, t, v, k, Invalid);
    assert Blocks(g, g.startLevel, u) == Blocks(g, g.startLevel, t);
    BackWalkBlocks(g, g.startLevel, u, v, k, pool);
    BackWalkSucceeds(g, g.startLevel, u, v, k, pool);
    PruneBlocks(g, g.startLevel, u, v, k);
  }

  /** Removing one piece that is mapped as one block. */
  lemma PieceRemoved(g: Geometry, t0: Table, t: Table, v: nat, k: nat, pool: Pool)
    requires Sound(g, t, pool) && Pruned(t) && AtLevel(g, k)
    requires OnBlock(g, k, v) && v + BlockSize(g, k) <= WORD
    requires LookupRoot(g, t, v).Some? && LookupRoot(g, t, v).value.level == k
    requires WF(g, g.startLevel, t0) && Pruned(t0) && Extends(t0, t) && LookupRoot(g, t0, v).None?
    ensures var r := UnmapPiece(g, t, v, k, pool);
            && r.rc != Missing
            && (r.rc == Removed ==> Shed(g, t, pool, r.t, r.pool) && Pruned(r.t) && Extends(t0, r.t)
                                    && Removes(g, t, r.t, v, BlockSize(g, k)))
            && (Unused(pool.fb) >= Excess(g, t0, t) ==>
                  r.rc == Removed && Unused(r.pool.fb) >= Excess(g, t0, r.t))
  {
    hide Index, PlaceOk, Prune, Blocks, NoSharing, Tiling, BackWalk, Unused, Pruned, Extends, BlockSize, Removes,
      Cleared;
    HitPath(g, g.startLevel, t, v);
    PieceFrees(g, t, v, k, pool);
    ClearedLookups(g, t, v, k);
    ClearedShape(g, t0, t, v, k);
    var w := Cleared(g, t, v, k);
    ExtendsBlocks(g, g.startLevel, t0, w);
    ExtendsBlocks(g, g.startLevel, t0, t);
    ClearedBlocks(g, t, v, k);
    Chain(Blocks(g, g.startLevel, t0), Blocks(g, g.startLevel, w), Blocks(g, g.startLevel, t));
  }

  lemma ClearedBlocks(g: Geometry, t: Table, v: nat, k: nat)
    requires WF(g, g.startLevel, t) && HasPath(g, g.startLevel, t, v, k) && NoSharing(g, g.startLevel, t)
    requires EntryAt(g, g.startLevel, t, v, k).Leaf?
    ensures Blocks(g, g.startLevel, Cleared(g, t, v, k)) <= Blocks(g, g.startLevel, t)
  {
    hide Index, PlaceOk, Prune, Blocks, NoSharing, SetEntry;
    PathAfterSet(g, g.startLevel, t, v, k, Invalid, k);
    SetEntryBlocks(g, g.startLevel, t, v, k, Invalid);
    PruneBlocks(g, g.startLevel, SetEntry(g, g.startLevel, t, v, k, Invalid), v, k);
  }

  lemma Chain<T>(a: set<T>, b: set<T>, c: set<T>)
    requires a <= b <= c
    ensures |c - a| == |c - b| + |b - a| && c - a == (c - b) + (b - a)
  {
    assert c - a == (c - b) + (b - a);
  }

  /** The region translates as a map of it left it. */
  ghost predicate Holds(g: Geometry, t: Table, v: nat, p: nat, sz: nat)
    requires Known(g) && WF(g, g.startLevel, t) && MapArgs(g, v, p, sz)
  {
    forall x: nat | v <= x < v + sz :: LookupRoot(g, t, x) == Some(RegionHit(g, v, p, sz, x))
  }

  lemma HoldsStart(g: Geometry, t: Table, v: nat, p: nat, sz: nat, k: nat, b: nat)
    requires Known(g) && WF(g, g.startLevel, t) && MapArgs(g, v, p, sz) && Holds(g, t, v, p, sz)
    requires k == ChunkLevel(g, g.startLevel, v, sz) && b == BlockSize(g, k) && b <= sz
    requires b < sz ==> MapArgs(g, v + b, p + b, sz - b)
    ensures LookupRoot(g, t, v) == Some(Hit(k, PaField(p)))
  {
    hide BlockSize, PageSize, Aligned, ChunkLevel, WF, LookupRoot, RegionHit, MapArgs;
    RegionHitStep(g, v, p, sz, k, b, v);
    assert v < v + sz;
  }

  lemma HoldsRest(g: Geometry, t: Table, w: Table, v: nat, p: nat, sz: nat, k: nat, b: nat)
    requires Known(g) && WF(g, g.startLevel, t) && WF(g, g.startLevel, w) && MapArgs(g, v, p, sz)
    requires Holds(g, t, v, p, sz) && Removes(g, t, w, v, b)
    requires k == ChunkLevel(g, g.startLevel, v, sz) && b == BlockSize(g, k) && b < sz
    requires MapArgs(g, v + b, p + b, sz - b) && v + sz <= WORD
    ensures Holds(g, w, v + b, p + b, sz - b)
  {
    hide BlockSize, PageSize, Aligned, ChunkLevel, WF, LookupRoot, RegionHit, MapArgs;
    forall x: nat | v + b <= x < v + b + (sz - b)
      ensures LookupRoot(g, w, x) == Some(RegionHit(g, v + b, p + b, sz - b, x))
    {
      RegionHitStep(g, v, p, sz, k, b, x);
    }
  }

  /** What unmapping a mapped region promises. `t0` is any pruned tree that `t` extends and
      that does not map the region: the result still extends it. */
  ghost predicate Released(g: Geometry, t0: Table, t: Table, pool: Pool, r: UnmapResult, v: nat, sz: nat)
    requires Sound(g, t, pool) && WF(g, g.startLevel, t0)
  {
    && r.rc != Missing && WF(g, g.startLevel, r.t)
    && (r.rc == Removed ==>
         Shed(g, t, pool, r.t, r.pool) && Pruned(r.t) && Extends(t0, r.t) && Removes(g, t, r.t, v, sz))
    && (Unused(pool.fb) >= Excess(g, t0, t) ==> r.rc == Removed && Unused(r.pool.fb) >= Excess(g, t0, r.t))
  }

  lemma ReleasedLater(g: Geometry, t0: Table, t: Table, pool: Pool, u: UnmapResult, r: UnmapResult, v: nat, b: nat,
        sz: nat)
    requires Sound(g, t, pool) && WF(g, g.startLevel, t0) && u.rc == Removed && Released(g, t0, t, pool, u, v, b)
    requires Sound(g, u.t, u.pool) && b <= sz && Released(g, t0, u.t, u.pool, r, v + b, sz - b)
    ensures Released(g, t0, t, pool, r, v, sz)
  {
    hide WF, Tiling, NoSharing, Blocks, Pruned, Extends, Unused, LookupRoot, Excess;
    if r.rc == Removed {
      ShedTrans(g, t, pool, u.t, u.pool, r.t, r.pool);
      RemovesTrans(g, t, u.t, r.t, v, b, sz);
    }
  }

  lemma ShedTrans(g: Geometry, t: Table, pool: Pool, u: Table, mid: Pool, w: Table, last: Pool)
    requires Sound(g, t, pool) && Shed(g, t, pool, u, mid) && Shed(g, u, mid, w, last)
    ensures Shed(g, t, pool, w, last)
  {
    hide WF, Tiling, NoSharing, Blocks;
    Chain(last.live, mid.live, pool.live);
    Chain(Blocks(g, g.startLevel, w), Blocks(g, g.startLevel, u), Blocks(g, g.startLevel, t));
  }

  lemma RemovesTrans(g: Geometry, t: Table, u: Table, w: Table, v: nat, b: nat, sz: nat)
    requires WF(g, g.startLevel, t) && WF(g, g.startLevel, u) && WF(g, g.startLevel, w)
    requires b <= sz && Removes(g, t, u, v, b) && Removes(g, u, w, v + b, sz - b)
    ensures Removes(g, t, w, v, sz)
  {
    hide WF, LookupRoot;
  }

  /** One round of `UnmapAll`. */
  lemma UnmapAllStep(g: Geometry, t: Table, v: nat, sz: nat, pool: Pool, k: nat, b: nat)
    requires Known(g) && WF(g, g.startLevel, t) && WholePages(g, v, sz)
    requires k == ChunkLevel(g, g.startLevel, v, sz) && b == BlockSize(g, k)
    requires b < sz ==> WholePages(g, v + b, sz - b)
    ensures var r := UnmapPiece(g, t, v, k, pool);
            UnmapAll(g, t, v, sz, pool) ==
              if r.rc != Removed || b >= sz then r else UnmapAll(g, r.t, v + b, sz - b, r.pool)
  {
    hide BlockSize, PageSize, Aligned, ChunkLevel, WF, UnmapPiece;
    ChunkFits(g, v, sz);
  }

  /** Unmapping a region in which every address translates as a map of it left it. */
  lemma {:induction false} UnmapRefines(g: Geometry, t0: Table, t: Table, v: nat, p: nat, sz: nat, pool: Pool)
    requires Sound(g, t, pool) && Pruned(t) && MapArgs(g, v, p, sz) && OnPage(g, v) && Holds(g, t, v, p, sz)
    requires WF(g, g.startLevel, t0) && Pruned(t0) && Extends(t0, t) && Unmapped(g, t0, v, sz)
    ensures Released(g, t0, t, pool, UnmapAll(g, t, v, sz, pool), v, sz)
    decreases sz
  {
    hide BlockSize, PageSize, OnPage, OnBlock, ChunkLevel, WF, Tiling, NoSharing, Blocks, Pruned, Extends, Unused,
      LookupRoot, Excess, UnmapPiece, UnmapAll, Holds, Removes, Shed, Sound, RegionHit;
    SoundParts(g, t, pool);
    var k := ChunkLevel(g, g.startLevel, v, sz);
    var b := BlockSize(g, k);
    RegionParts(g, t0, v, p, sz, k, b);
    UnmapAllStep(g, t, v, sz, pool, k, b);
    HoldsStart(g, t, v, p, sz, k, b);
    PieceRemoved(g, t0, t, v, k, pool);
    var u := UnmapPiece(g, t, v, k, pool);
    if u.rc == Removed && b < sz {
      ShedSound(g, t, pool, u.t, u.pool);
      HoldsRest(g, t, u.t, v, p, sz, k, b);
      UnmapRefines(g, t0, u.t, v + b, p + b, sz - b, u.pool);
      ReleasedLater(g, t0, t, pool, u, UnmapAll(g, u.t, v + b, sz - b, u.pool), v, b, sz);
    }
  }

  lemma SoundParts(g: Geometry, t: Table, pool: Pool)
    requires Sound(g, t, pool)
    ensures Known(g) && AtLevel(g, g.startLevel) && WF(g, g.startLevel, t) && pool.Valid()
    ensures Blocks(g, g.startLevel, t) <= pool.live
  {
  }

  lemma ShedSound(g: Geometry, t: Table, pool: Pool, w: Table, pool': Pool)
    requires Sound(g, t, pool) && Shed(g, t, pool, w, pool')
    ensures Sound(g, w, pool')
  {
  }

  lemma RegionParts(g: Geometry, t0: Table, v: nat, p: nat, sz: nat, k: nat, b: nat)
    requires Known(g) && WF(g, g.startLevel, t0) && MapArgs(g, v, p, sz) && OnPage(g, v) && Unmapped(g, t0, v, sz)
    requires k == ChunkLevel(g, g.startLevel, v, sz) && b == BlockSize(g, k)
    ensures AtLevel(g, k) && 0 < b <= sz && OnBlock(g, k, v) && v + sz <= WORD && WholePages(g, v, sz)
    ensures LookupRoot(g, t0, v).None?
    ensures b < sz ==> MapArgs(g, v + b, p + b, sz - b) && OnPage(g, v + b) && WholePages(g, v + b, sz - b)
                       && Unmapped(g, t0, v + b, sz - b)
  {
    hide BlockSize, PageSize, Aligned, ChunkLevel, WF, LookupRoot;
    ChunkFits(g, v, sz);
    ChunkAligned(g, v, sz);
  }

  /** A map for which there are tables enough succeeds, and `mmu_unmap` after it finds every
      piece; when that reports success the old tree and the old set of live blocks are back, and
      it does so whenever the allocator has a free slot for every table the map added. */
  lemma UnmapRestores(g: Geometry, t: Table, v: nat, p: nat, sz: nat, pool: Pool)
    requires Sound(g, t, pool) && Pruned(t) && MapArgs(g, v, p, sz) && OnPage(g, v) && Unmapped(g, t, v, sz)
    requires TablesSuffice(g, t, v, sz, pool)
    ensures var m := MapAll(g, t, v, p, sz, pool);
            var r := UnmapAll(g, m.t, v, sz, m.pool);
            && m.rc == Mapped && r.rc != Missing
            && (r.rc == Removed ==> r.t == t && r.pool.live == pool.live && r.pool.Valid())
            && (Unused(m.pool.fb) >= |Needs(g, t, v, sz)| ==> r.rc == Removed)
  {
    hide BlockSize, PageSize, OnPage, ChunkLevel, Tiling, NoSharing, Blocks, Pruned, Extends, Unused, UnmapAll,
      MapAll, RegionHit, PlaceOk, WF, Needs, CanTake;
    MapExact(g, t, v, p, sz, pool);
    var m := MapAll(g, t, v, p, sz, pool);
    assert Holds(g, m.t, v, p, sz) by { hide LookupRoot; }
    assert Blocks(g, g.startLevel, m.t) - Blocks(g, g.startLevel, t) == m.pool.live - pool.live;
    UnmapRefines(g, t, m.t, v, p, sz, m.pool);
    var r := UnmapAll(g, m.t, v, sz, m.pool);
    if r.rc == Removed {
      SameAsBefore(g, t, m.t, r.t, v, p, sz);
      SameMapsSameTree(g, g.startLevel, t, r.t, 0);
    }
  }

  lemma SameAsBefore(g: Geometry, t: Table, u: Table, w: Table, v: nat, p: nat, sz: nat)
    requires Known(g) && WF(g, g.startLevel, t) && WF(g, g.startLevel, u) && WF(g, g.startLevel, w)
             && MapArgs(g, v, p, sz)
    requires Unmapped(g, t, v, sz) && Adds(g, t, u, v, p, sz) && Removes(g, u, w, v, sz)
    ensures SameMaps(g, g.startLevel, t, w, 0) && 0 % Span(g, g.startLevel) == 0
  {
    hide RegionHit, PlaceOk, WF, Lookup, MapArgs, BlockSize;
    forall x: nat | x < WORD
      ensures Lookup(g, g.startLevel, t, x) == Lookup(g, g.startLevel, w, x)
    {
      assert LookupRoot(g, w, x) == if v <= x < v + sz then None else LookupRoot(g, u, x);
      assert !(v <= x < v + sz) ==> LookupRoot(g, u, x) == LookupRoot(g, t, x);
    }
  }
}
