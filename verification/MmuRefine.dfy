/** `mmu_map` as an update of the partial function from virtual to physical addresses. */
module MmuRefine {
  import opened Words
  import opened Arith
  import opened Bits
  import opened MmuGeometry
  import opened MmuTree
  import opened MmuMap
  import opened Balloc

  /** What every reachable tree satisfies, with the blocks its tables occupy. */
  ghost predicate Sound(g: Geometry, t: Table, pool: Pool)
  {
    && Known(g) && WF(g, g.startLevel, t) && pool.Valid()
    && NoSharing(g, g.startLevel, t) && Blocks(g, g.startLevel, t) <= pool.live
  }

  /** A piece lies on its own block boundary. */
  lemma ChunkAligned(g: Geometry, v: nat, sz: nat)
    requires Known(g) && OnPage(g, v) && 0 < sz && sz % PageSize(g) == 0
    ensures var k := ChunkLevel(g, g.startLevel, v, sz); var b := BlockSize(g, k);
            OnBlock(g, k, v) && 0 < b <= sz && (sz - b) % PageSize(g) == 0 && OnPage(g, v + b)
  {
    hide BlockSize, PageSize, Aligned;
    var k := ChunkLevel(g, g.startLevel, v, sz);
    LevelSizes(g, k);
    ChunkFits(g, v, sz);
    AlignedIsMultiple(v, BlockSize(g, k));
    SumOfMultiples(v, BlockSize(g, k), PageSize(g));
  }

  /** `u` is a sound, pruned extension of `t` whose new tables are newly allocated blocks. */
  ghost predicate Grew(g: Geometry, t: Table, pool: Pool, u: Table, pool': Pool)
    requires Sound(g, t, pool)
  {
    && Sound(g, u, pool') && Pruned(u) && Extends(t, u) && pool.live <= pool'.live
    && Blocks(g, g.startLevel, u) == Blocks(g, g.startLevel, t) + (pool'.live - pool.live)
  }

  lemma GrewTrans(g: Geometry, t: Table, pool: Pool, u: Table, pool': Pool, w: Table, pool'': Pool)
    requires Sound(g, t, pool) && Grew(g, t, pool, u, pool') && Grew(g, u, pool', w, pool'')
    ensures Grew(g, t, pool, w, pool'')
  {
    ExtendsTrans(t, u, w);
  }

  /** Addresses of `[v, v + b)` now lead to `hit`, all others where they led before. */
  ghost predicate PieceAdded(g: Geometry, t: Table, u: Table, v: nat, b: nat, hit: Hit)
    requires WF(g, g.startLevel, t) && WF(g, g.startLevel, u)
  {
    forall x: nat | x < WORD ::
      LookupRoot(g, u, x) == if v <= x < v + b then Some(hit) else LookupRoot(g, t, x)
  }

  lemma StillUnmapped(g: Geometry, t: Table, u: Table, v: nat, b: nat, hit: Hit, sz: nat)
    requires WF(g, g.startLevel, t) && WF(g, g.startLevel, u) && PieceAdded(g, t, u, v, b, hit)
    requires Unmapped(g, t, v, sz) && b <= sz && v + sz <= WORD
    ensures Unmapped(g, u, v + b, sz - b)
  {
    hide WF, LookupRoot;
  }

  /** Entering one piece over an unmapped block never reports an overlap; then the block leads
      to the given address, nothing else changed, and every structural property is kept. */
  lemma PieceMapped(g: Geometry, t: Table, v: nat, p: nat, k: nat, pool: Pool)
    requires Sound(g, t, pool) && Pruned(t) && AtLevel(g, k) && p < MAX_PA
    requires OnBlock(g, k, v) && v + BlockSize(g, k) <= WORD
    requires Unmapped(g, t, v, BlockSize(g, k))
    ensures var r := MapPiece(g, t, v, p, k, pool);
            && r.rc != Overlap
            && (r.rc == Mapped ==> Grew(g, t, pool, r.t, r.pool)
                                   && PieceAdded(g, t, r.t, v, BlockSize(g, k), Hit(k, PaField(p))))
  {
    hide BlockSize, Index, PlaceOk, Tiling, Grow, Blocks, NoSharing;
    var r := Grow(g, g.startLevel, t, v, k, pool);
    if r.ok {
      assert LookupRoot(g, t, v).None?;
      assert !LeafAbove(g, g.startLevel, t, v, k);
      GrowEntry(g, g.startLevel, t, v, k, pool);
      if HasPath(g, g.startLevel, t, v, k) {
        FreeChunk(g, t, v, k);
      }
      FillPruned(g, g.startLevel, t, v, k, pool, PaField(p));
      FillExtends(g, g.startLevel, t, v, k, pool, PaField(p));
      GrowBlocks(g, g.startLevel, t, v, k, pool);
      SetEntryBlocks(g, g.startLevel, r.t, v, k, Leaf(PaField(p)));
      FilledLookups(g, t, v, p, k, pool);
    }
  }

  lemma FilledLookups(g: Geometry, t: Table, v: nat, p: nat, k: nat, pool: Pool)
    requires Known(g) && WF(g, g.startLevel, t) && pool.Valid() && AtLevel(g, k) && p < MAX_PA
    requires OnBlock(g, k, v) && v + BlockSize(g, k) <= WORD
    requires !LeafAbove(g, g.startLevel, t, v, k) && Grow(g, g.startLevel, t, v, k, pool).ok
    ensures var u := SetEntry(g, g.startLevel, Grow(g, g.startLevel, t, v, k, pool).t, v, k, Leaf(PaField(p)));
            PieceAdded(g, t, u, v, BlockSize(g, k), Hit(k, PaField(p)))
  {
    hide BlockSize, Index, PlaceOk, Tiling, Grow;
    var r := Grow(g, g.startLevel, t, v, k, pool);
    forall x: nat | x < WORD
      ensures LookupRoot(g, SetEntry(g, g.startLevel, r.t, v, k, Leaf(PaField(p))), x) ==
              if v <= x < v + BlockSize(g, k) then Some(Hit(k, PaField(p))) else LookupRoot(g, t, x)
    {
      PathIsBlock(g, k, v, x);
      LookupSet(g, g.startLevel, r.t, v, k, Leaf(PaField(p)), x);
      GrowLookup(g, g.startLevel, t, v, k, pool, x);
    }
  }

  /** Entering a piece, successfully or not, over anything, keeps the tree free of sharing and
      its tables in live blocks. */
  lemma PieceKeepsSound(g: Geometry, t: Table, v: nat, p: nat, k: nat, pool: Pool)
    requires Sound(g, t, pool) && AtLevel(g, k) && p < MAX_PA
    ensures var r := MapPiece(g, t, v, p, k, pool);
            && Sound(g, r.t, r.pool) && pool.live <= r.pool.live
            && Blocks(g, g.startLevel, r.t) == Blocks(g, g.startLevel, t) + (r.pool.live - pool.live)
  {
    hide BlockSize, Index, PlaceOk, Tiling, Grow, Blocks, NoSharing;
    GrowBlocks(g, g.startLevel, t, v, k, pool);
    var r := Grow(g, g.startLevel, t, v, k, pool);
    if r.ok && EntryAt(g, g.startLevel, r.t, v, k).Invalid? {
      SetEntryBlocks(g, g.startLevel, r.t, v, k, Leaf(PaField(p)));
    }
  }

  /** The level and output address the region `[v, v + sz)` gives to `x`. */
  ghost function RegionHit(g: Geometry, v: nat, p: nat, sz: nat, x: nat): Hit
    requires Known(g) && MapArgs(g, v, p, sz) && v <= x < v + sz
    decreases sz
  {
    hide BlockSize, PageSize, Aligned;
    ChunkFits(g, v, sz);
    var k := ChunkLevel(g, g.startLevel, v, sz);
    var b := BlockSize(g, k);
    if x < v + b then Hit(k, PaField(p)) else RegionHit(g, v + b, p + b, sz - b, x)
  }

  /** `u` translates the region as asked and everything else as `t` did. */
  ghost predicate Adds(g: Geometry, t: Table, u: Table, v: nat, p: nat, sz: nat)
    requires Known(g) && WF(g, g.startLevel, t) && WF(g, g.startLevel, u) && MapArgs(g, v, p, sz)
  {
    forall x: nat | x < WORD ::
      LookupRoot(g, u, x) == if v <= x < v + sz then Some(RegionHit(g, v, p, sz, x)) else LookupRoot(g, t, x)
  }

  lemma RegionHitStep(g: Geometry, v: nat, p: nat, sz: nat, k: nat, b: nat, x: nat)
    requires Known(g) && MapArgs(g, v, p, sz) && k == ChunkLevel(g, g.startLevel, v, sz) && b == BlockSize(g, k)
    requires b < sz ==> MapArgs(g, v + b, p + b, sz - b)
    requires v <= x < v + sz && b <= sz
    ensures RegionHit(g, v, p, sz, x) == if x < v + b then Hit(k, PaField(p)) else RegionHit(g, v + b, p + b, sz - b, x)
  {
    hide BlockSize, PageSize, Aligned, ChunkLevel, MapArgs;
  }

  lemma AddsLast(g: Geometry, t: Table, u: Table, v: nat, p: nat, sz: nat, k: nat)
    requires Known(g) && WF(g, g.startLevel, t) && WF(g, g.startLevel, u) && MapArgs(g, v, p, sz)
    requires k == ChunkLevel(g, g.startLevel, v, sz) && sz == BlockSize(g, k)
    requires PieceAdded(g, t, u, v, sz, Hit(k, PaField(p)))
    ensures Adds(g, t, u, v, p, sz)
  {
    hide BlockSize, PageSize, Aligned, WF, LookupRoot, ChunkLevel;
  }

  lemma AddsPiece(g: Geometry, t: Table, u: Table, w: Table, v: nat, p: nat, sz: nat, k: nat, b: nat)
    requires Known(g) && WF(g, g.startLevel, t) && WF(g, g.startLevel, u) && WF(g, g.startLevel, w)
    requires MapArgs(g, v, p, sz) && k == ChunkLevel(g, g.startLevel, v, sz) && b == BlockSize(g, k) && b < sz
    requires PieceAdded(g, t, u, v, b, Hit(k, PaField(p)))
    requires MapArgs(g, v + b, p + b, sz - b) && v + sz <= WORD && Adds(g, u, w, v + b, p + b, sz - b)
    ensures Adds(g, t, w, v, p, sz)
  {
    hide BlockSize, PageSize, Aligned, WF, LookupRoot, ChunkLevel, MapArgs, RegionHit;
    forall x: nat | x < WORD
      ensures LookupRoot(g, w, x) == if v <= x < v + sz then Some(RegionHit(g, v, p, sz, x)) else LookupRoot(g, t, x)
    {
      if v <= x < v + sz {
        RegionHitStep(g, v, p, sz, k, b, x);
      }
      assert LookupRoot(g, u, x) == if v <= x < v + b then Some(Hit(k, PaField(p))) else LookupRoot(g, t, x);
    }
  }

  /** Everything a map of an unmapped region promises about its result. */
  ghost predicate Refined(g: Geometry, t: Table, pool: Pool, r: MapResult, v: nat, p: nat, sz: nat)
    requires Sound(g, t, pool) && MapArgs(g, v, p, sz)
  {
    && r.rc != Overlap && r.pool.Valid() && WF(g, g.startLevel, r.t)
    && (r.rc == Mapped ==> Grew(g, t, pool, r.t, r.pool) && Adds(g, t, r.t, v, p, sz))
  }

  lemma RefinedOutOfTables(g: Geometry, t: Table, pool: Pool, r: MapResult, v: nat, p: nat, sz: nat)
    requires Sound(g, t, pool) && MapArgs(g, v, p, sz)
    requires r.rc == NoTable && r.pool.Valid() && WF(g, g.startLevel, r.t)
    ensures Refined(g, t, pool, r, v, p, sz)
  {
  }

  lemma RefinedLater(g: Geometry, t: Table, pool: Pool, u: Table, pool': Pool, r: MapResult, v: nat, p: nat, sz: nat,
        k: nat, b: nat)
    requires Sound(g, t, pool) && Grew(g, t, pool, u, pool') && Sound(g, u, pool')
    requires MapArgs(g, v, p, sz) && k == ChunkLevel(g, g.startLevel, v, sz) && b == BlockSize(g, k) && b < sz
    requires PieceAdded(g, t, u, v, b, Hit(k, PaField(p)))
    requires MapArgs(g, v + b, p + b, sz - b) && Refined(g, u, pool', r, v + b, p + b, sz - b)
    ensures Refined(g, t, pool, r, v, p, sz)
  {
    hide BlockSize, PageSize, Aligned, ChunkLevel, Pruned, NoSharing, Blocks, Tiling, WF, Adds, PieceAdded;
    if r.rc == Mapped {
      GrewTrans(g, t, pool, u, pool', r.t, r.pool);
      AddsPiece(g, t, u, r.t, v, p, sz, k, b);
    }
  }

  lemma RefinedLast(g: Geometry, t: Table, pool: Pool, u: Table, pool': Pool, v: nat, p: nat, sz: nat, k: nat)
    requires Sound(g, t, pool) && Grew(g, t, pool, u, pool') && WF(g, g.startLevel, u) && MapArgs(g, v, p, sz)
    requires k == ChunkLevel(g, g.startLevel, v, sz) && sz == BlockSize(g, k)
    requires PieceAdded(g, t, u, v, sz, Hit(k, PaField(p)))
    ensures Refined(g, t, pool, MapResult(Mapped, u, pool'), v, p, sz)
  {
    hide BlockSize, PageSize, Aligned, ChunkLevel, Pruned, NoSharing, Blocks, Tiling, WF, Adds, PieceAdded;
    AddsLast(g, t, u, v, p, sz, k);
  }

  /** Mapping an unmapped region never reports an overlap; when tables do not run out it adds
      exactly the region's translations and keeps every structural property. */
  lemma {:induction false} MapRefines(g: Geometry, t: Table, v: nat, p: nat, sz: nat, pool: Pool)
    requires Sound(g, t, pool) && Pruned(t) && MapArgs(g, v, p, sz) && OnPage(g, v)
    requires Unmapped(g, t, v, sz)
    ensures Refined(g, t, pool, MapAll(g, t, v, p, sz, pool), v, p, sz)
    decreases sz
  {
    hide BlockSize, PageSize, Aligned, MapPiece, MapAll, Pruned, Grew, ChunkLevel, PieceAdded, Tiling, WF, MapArgs,
      Unmapped, OnPage, OnBlock, Blocks, NoSharing, Adds, Refined;
    var k := ChunkLevel(g, g.startLevel, v, sz);
    var b := BlockSize(g, k);
    NextPiece(g, t, v, p, sz, k, b);
    MapAllStep(g, t, v, p, sz, pool, k, b);
    PieceMapped(g, t, v, p, k, pool);
    var r := MapPiece(g, t, v, p, k, pool);
    if r.rc == Mapped {
      GrewSound(g, t, pool, r.t, r.pool);
      if sz == b {
        RefinedLast(g, t, pool, r.t, r.pool, v, p, sz, k);
      } else {
        StillUnmapped(g, t, r.t, v, b, Hit(k, PaField(p)), sz);
        MapRefines(g, r.t, v + b, p + b, sz - b, r.pool);
        RefinedLater(g, t, pool, r.t, r.pool, MapAll(g, r.t, v + b, p + b, sz - b, r.pool), v, p, sz, k, b);
      }
    } else {
      RefinedOutOfTables(g, t, pool, r, v, p, sz);
    }
  }

  lemma NextPiece(g: Geometry, t: Table, v: nat, p: nat, sz: nat, k: nat, b: nat)
    requires Known(g) && WF(g, g.startLevel, t) && MapArgs(g, v, p, sz) && OnPage(g, v) && Unmapped(g, t, v, sz)
    requires k == ChunkLevel(g, g.startLevel, v, sz) && b == BlockSize(g, k)
    ensures p < MAX_PA && 0 < b <= sz && OnBlock(g, k, v) && v + sz <= WORD && Unmapped(g, t, v, b)
    ensures b < sz ==> MapArgs(g, v + b, p + b, sz - b) && OnPage(g, v + b)
  {
    hide BlockSize, PageSize, Aligned, ChunkLevel, WF, LookupRoot;
    ChunkFits(g, v, sz);
    ChunkAligned(g, v, sz);
  }

  lemma GrewSound(g: Geometry, t: Table, pool: Pool, u: Table, pool': Pool)
    requires Sound(g, t, pool) && Grew(g, t, pool, u, pool')
    ensures Sound(g, u, pool') && Pruned(u)
  {
  }
}
