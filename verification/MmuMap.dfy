/** What `mmu_map` does to a page-table tree and to the allocator: missing tables are linked,
    piece by piece of the region, and block or page descriptors written. */
module MmuMap {
  import opened Words
  import opened Arith
  import opened Bits
  import opened MmuGeometry
  import opened MmuTree
  import opened Balloc

  /** A table of invalid descriptors. */
  function EmptyTable(g: Geometry, l: nat, addr: u32): (t: Table)
  {
    Table(addr, seq(Entries(g, l), i => Invalid))
  }

  /** Descriptor level chosen for the next piece of a region: the first level, from `l` down,
      whose block is aligned at `v` and no larger than what is left. */
  function ChunkLevel(g: Geometry, l: nat, v: nat, sz: nat): (k: nat)
    requires AtLevel(g, l)
    ensures l <= k <= MAX_LEVEL
    ensures k < MAX_LEVEL ==> Aligned(v, BlockSize(g, k)) && sz >= BlockSize(g, k)
    decreases MAX_LEVEL - l
  {
    if l == MAX_LEVEL || (Aligned(v, BlockSize(g, l)) && sz >= BlockSize(g, l)) then l
    else ChunkLevel(g, l + 1, v, sz)
  }

  /** `pt_alloc` below the root: an aligned page from the allocator, filled with invalid
      descriptors. */
  ghost function NewTable(g: Geometry, l: nat, pool: Pool): (r: (Option<Table>, Pool))
    requires Known(g) && AtLevel(g, l) && l > g.startLevel && pool.Valid()
    ensures r.1.Valid()
    ensures r.0.None? ==> r.1 == pool
    ensures r.0.Some? ==>
      && WF(g, l, r.0.value) && r.0.value == EmptyTable(g, l, r.0.value.addr)
      && OwnBlock(g, l, r.0.value) !in pool.live && r.1.live == pool.live + {OwnBlock(g, l, r.0.value)}
  {
    LevelSizes(g, l);
    pool.TakeSafe(PageSize(g), PageSize(g));
    var (addr, pool') := pool.Take(PageSize(g), PageSize(g));
    (if addr == 0 then None else Some(EmptyTable(g, l, addr)), pool')
  }

  /** A tree after missing tables were linked along a path; `ok` is false when the allocator
      ran out. */
  datatype Grown = Grown(t: Table, pool: Pool, ok: bool)

  ghost function Grow(g: Geometry, l: nat, t: Table, v: nat, k: nat, pool: Pool): (r: Grown)
    requires Known(g) && WF(g, l, t) && l <= k <= MAX_LEVEL && pool.Valid()
    ensures r.pool.Valid() && WF(g, l, r.t) && r.t.addr == t.addr
    ensures r.ok ==> HasPath(g, l, r.t, v, k)
    decreases k - l
  {
    hide Tiling, PlaceOk, Index;
    var i := Index(g, l, v);
    if l == k then Grown(t, pool, true)
    else if t.ents[i].Sub? then
      var r := Grow(g, l + 1, t.ents[i].t, v, k, pool);
      Grown(PutSub(g, l, t, i, r.t), r.pool, r.ok)
    else
      var (s, pool') := NewTable(g, l + 1, pool);
      if s.None? then Grown(t, pool, false)
      else
        var r := Grow(g, l + 1, s.value, v, k, pool');
        Grown(PutSub(g, l, t, i, r.t), r.pool, r.ok)
  }

  /** One step of `Grow` through an existing table. */
  lemma GrowThrough(g: Geometry, l: nat, t: Table, v: nat, k: nat, pool: Pool)
    requires Known(g) && WF(g, l, t) && l < k <= MAX_LEVEL && pool.Valid()
    requires t.ents[Index(g, l, v)].Sub?
    ensures var r := Grow(g, l + 1, t.ents[Index(g, l, v)].t, v, k, pool);
            Grow(g, l, t, v, k, pool) == Grown(PutSub(g, l, t, Index(g, l, v), r.t), r.pool, r.ok)
  {
    hide Tiling, PlaceOk, Index;
  }

  /** One step of `Grow` that needs a new table. */
  lemma GrowNew(g: Geometry, l: nat, t: Table, v: nat, k: nat, pool: Pool)
    requires Known(g) && WF(g, l, t) && l < k <= MAX_LEVEL && pool.Valid()
    requires !t.ents[Index(g, l, v)].Sub?
    ensures NewTable(g, l + 1, pool).0.None? ==> Grow(g, l, t, v, k, pool) == Grown(t, pool, false)
    ensures NewTable(g, l + 1, pool).0.Some? ==>
      var r := Grow(g, l + 1, NewTable(g, l + 1, pool).0.value, v, k, NewTable(g, l + 1, pool).1);
      Grow(g, l, t, v, k, pool) == Grown(PutSub(g, l, t, Index(g, l, v), r.t), r.pool, r.ok)
  {
    hide Tiling, PlaceOk, Index, NewTable;
  }

  datatype Rc = Mapped | Overlap | NoTable
  datatype MapResult = MapResult(rc: Rc, t: Table, pool: Pool)

  /** Whole pages of the 32-bit virtual space. */
  predicate WholePages(g: Geometry, v: nat, sz: nat)
  {
    0 < sz && sz % PageSize(g) == 0 && v + sz <= WORD
  }

  /** A region to map, with a 48-bit physical side. */
  predicate MapArgs(g: Geometry, v: nat, p: nat, sz: nat)
  {
    WholePages(g, v, sz) && p + sz <= MAX_PA
  }

  /** Where the output address is stored from. */
  function PaField(p: nat): (pa: nat)
    ensures pa % 4096 == 0 && pa <= p
  {
    p / 4096 * 4096
  }

  lemma ChunkFits(g: Geometry, v: nat, sz: nat)
    requires Known(g) && 0 < sz && sz % PageSize(g) == 0
    ensures var b := BlockSize(g, ChunkLevel(g, g.startLevel, v, sz));
            0 < b <= sz && (sz - b) % PageSize(g) == 0 && b % PageSize(g) == 0
  {
    hide BlockSize, PageSize, Aligned;
    var k := ChunkLevel(g, g.startLevel, v, sz);
    LevelSizes(g, k);
    MultipleLeft(sz, BlockSize(g, k), PageSize(g));
  }

  lemma MultipleLeft(sz: nat, b: nat, p: nat)
    requires p > 0 && sz > 0 && sz % p == 0 && b % p == 0
    ensures sz >= p && (sz - b) % p == 0
  {
    DivBounds(sz, p);
    DivBounds(b, p);
    if sz / p <= 0 {
      MulMonotone(sz / p, 0, p);
    } else {
      MulMonotone(1, sz / p, p);
    }
    assert (sz / p - b / p) * p == sz - b;
    DivUnique(sz - b, p, sz / p - b / p);
  }

  /** One piece of a region entered at level `k`: link missing tables, refuse a descriptor
      already in use, write the block or page descriptor. */
  ghost function MapPiece(g: Geometry, t: Table, v: nat, p: nat, k: nat, pool: Pool): (r: MapResult)
    requires Known(g) && WF(g, g.startLevel, t) && AtLevel(g, k) && pool.Valid() && p < MAX_PA
    ensures r.pool.Valid() && WF(g, g.startLevel, r.t) && r.t.addr == t.addr
  {
    hide Tiling, PlaceOk;
    var r := Grow(g, g.startLevel, t, v, k, pool);
    if !r.ok then MapResult(NoTable, r.t, r.pool)
    else if !EntryAt(g, g.startLevel, r.t, v, k).Invalid? then MapResult(Overlap, r.t, r.pool)
    else MapResult(Mapped, SetEntry(g, g.startLevel, r.t, v, k, Leaf(PaField(p))), r.pool)
  }

  /** The whole region, piece by piece. */
  ghost function MapAll(g: Geometry, t: Table, v: nat, p: nat, sz: nat, pool: Pool): (r: MapResult)
    requires Known(g) && WF(g, g.startLevel, t) && MapArgs(g, v, p, sz) && pool.Valid()
    ensures r.pool.Valid() && WF(g, g.startLevel, r.t) && r.t.addr == t.addr
    decreases sz
  {
    hide BlockSize, PageSize, Aligned, Tiling, PlaceOk;
    var k := ChunkLevel(g, g.startLevel, v, sz);
    ChunkFits(g, v, sz);
    var b := BlockSize(g, k);
    var r := MapPiece(g, t, v, p, k, pool);
    if r.rc != Mapped || sz == b then r else MapAll(g, r.t, v + b, p + b, sz - b, r.pool)
  }

  /** One round of `MapAll`. */
  lemma MapAllStep(g: Geometry, t: Table, v: nat, p: nat, sz: nat, pool: Pool, k: nat, b: nat)
    requires Known(g) && WF(g, g.startLevel, t) && MapArgs(g, v, p, sz) && pool.Valid()
    requires k == ChunkLevel(g, g.startLevel, v, sz) && b == BlockSize(g, k)
    requires b < sz ==> MapArgs(g, v + b, p + b, sz - b)
    ensures var r := MapPiece(g, t, v, p, k, pool);
            MapAll(g, t, v, p, sz, pool) ==
              if r.rc != Mapped || b >= sz then r else MapAll(g, r.t, v + b, p + b, sz - b, r.pool)
  {
    hide BlockSize, PageSize, Aligned, ChunkLevel, Tiling, WF, MapPiece;
    ChunkFits(g, v, sz);
  }

  /** The walk for `v` stops at a block above level `k`. */
  ghost predicate LeafAbove(g: Geometry, l: nat, t: Table, v: nat, k: nat)
    requires WF(g, l, t)
  {
    Lookup(g, l, t, v).Some? && Lookup(g, l, t, v).value.level < k
  }

  /** Linking tables changes no lookup unless a larger block is in the way. */
  lemma {:induction false} GrowLookup(g: Geometry, l: nat, t: Table, v: nat, k: nat, pool: Pool, x: nat)
    requires Known(g) && WF(g, l, t) && l <= k <= MAX_LEVEL && pool.Valid()
    requires !LeafAbove(g, l, t, v, k)
    ensures Lookup(g, l, Grow(g, l, t, v, k, pool).t, x) == Lookup(g, l, t, x)
    decreases k - l
  {
    hide NewTable, PlaceOk, Index;
    if l < k {
      var i := Index(g, l, v);
      if t.ents[i].Sub? {
        GrowLookup(g, l + 1, t.ents[i].t, v, k, pool, x);
      } else {
        var (s, pool') := NewTable(g, l + 1, pool);
        if s.Some? {
          GrowLookup(g, l + 1, s.value, v, k, pool', x);
        }
      }
    }
  }

  /** New tables sit in blocks just taken from the allocator, so nothing becomes shared. */
  lemma {:induction false} GrowBlocks(g: Geometry, l: nat, t: Table, v: nat, k: nat, pool: Pool)
    requires Known(g) && WF(g, l, t) && l <= k <= MAX_LEVEL && pool.Valid()
    requires NoSharing(g, l, t) && Blocks(g, l, t) <= pool.live
    ensures var r := Grow(g, l, t, v, k, pool);
            && NoSharing(g, l, r.t) && pool.live <= r.pool.live
            && Blocks(g, l, r.t) == Blocks(g, l, t) + (r.pool.live - pool.live)
    decreases k - l
  {
    hide Tiling, PlaceOk, Index, Blocks, NoSharing, Grow, NewTable;
    var i := Index(g, l, v);
    if l == k {
      GrowNothing(g, l, t, v, pool);
    } else if t.ents[i].Sub? {
      GrowThrough(g, l, t, v, k, pool);
      EntryBlocksWithin(g, l, t, i);
      GrowBlocks(g, l + 1, t.ents[i].t, v, k, pool);
      var r := Grow(g, l + 1, t.ents[i].t, v, k, pool);
      LiftBlocks(g, l, t, i, r.t, {}, r.pool.live - pool.live);
    } else {
      GrowNew(g, l, t, v, k, pool);
      var (s, pool') := NewTable(g, l + 1, pool);
      if s.Some? {
        EmptyTableBlocks(g, l + 1, s.value);
        GrowBlocks(g, l + 1, s.value, v, k, pool');
        var r := Grow(g, l + 1, s.value, v, k, pool');
        HangBlocks(g, l, t, i, r.t, r.pool.live - pool.live);
      }
    }
  }

  lemma GrowNothing(g: Geometry, l: nat, t: Table, v: nat, pool: Pool)
    requires Known(g) && WF(g, l, t) && pool.Valid()
    ensures Grow(g, l, t, v, l, pool) == Grown(t, pool, true)
  {
  }

  /** Hanging a new subtree where there was no table. */
  lemma HangBlocks(g: Geometry, l: nat, t: Table, i: nat, s: Table, added: set<Block>)
    requires WF(g, l, t) && NoSharing(g, l, t) && i < |t.ents| && !t.ents[i].Sub? && l < MAX_LEVEL
    requires WF(g, l + 1, s) && NoSharing(g, l + 1, s) && Blocks(g, l + 1, s) == added && added !! Blocks(g, l, t)
    ensures var t' := PutSub(g, l, t, i, s); NoSharing(g, l, t') && Blocks(g, l, t') == Blocks(g, l, t) + added
  {
    hide Blocks, NoSharing;
    assert WF(g, l, PutSub(g, l, t, i, s));
    EntryBlocksWithin(g, l, t, i);
    ReplaceEntryBlocks(g, l, t, i, Sub(s));
  }

  lemma EmptyTableBlocks(g: Geometry, l: nat, t: Table)
    requires WF(g, l, t) && t == EmptyTable(g, l, t.addr)
    ensures Blocks(g, l, t) == {OwnBlock(g, l, t)} && NoSharing(g, l, t)
    ensures Pruned(t) && !NonEmpty(t)
  {
  }

  /** What linking leaves at the end of the path: the old entry, or a fresh invalid one. */
  lemma {:induction false} GrowEntry(g: Geometry, l: nat, t: Table, v: nat, k: nat, pool: Pool)
    requires Known(g) && WF(g, l, t) && l <= k <= MAX_LEVEL && pool.Valid()
    requires Grow(g, l, t, v, k, pool).ok
    ensures EntryAt(g, l, Grow(g, l, t, v, k, pool).t, v, k) ==
            if HasPath(g, l, t, v, k) then EntryAt(g, l, t, v, k) else Invalid
    decreases k - l
  {
    hide Tiling, PlaceOk, Index, Grow, NewTable;
    var i := Index(g, l, v);
    if l == k {
      GrowNothing(g, l, t, v, pool);
    } else if t.ents[i].Sub? {
      GrowThrough(g, l, t, v, k, pool);
      GrowEntry(g, l + 1, t.ents[i].t, v, k, pool);
    } else {
      GrowNew(g, l, t, v, k, pool);
      var (s, pool') := NewTable(g, l + 1, pool);
      GrowEntry(g, l + 1, s.value, v, k, pool');
      FreshHasNoEntries(g, l + 1, s.value, v, k);
    }
  }

  lemma FreshHasNoEntries(g: Geometry, l: nat, t: Table, v: nat, k: nat)
    requires WF(g, l, t) && t == EmptyTable(g, l, t.addr) && l <= k <= MAX_LEVEL
    ensures HasPath(g, l, t, v, k) ==> EntryAt(g, l, t, v, k) == Invalid
  {
  }

  /** Linking and then filling the entry keeps the tree pruned. */
  lemma {:induction false} FillPruned(g: Geometry, l: nat, t: Table, v: nat, k: nat, pool: Pool, pa: nat)
    requires Known(g) && WF(g, l, t) && l <= k <= MAX_LEVEL && pool.Valid() && PaOk(pa)
    requires Pruned(t) && Grow(g, l, t, v, k, pool).ok
    ensures var u := SetEntry(g, l, Grow(g, l, t, v, k, pool).t, v, k, Leaf(pa)); Pruned(u) && NonEmpty(u)
    decreases k - l
  {
    hide Tiling, PlaceOk, Index, NewTable;
    var i, u := Index(g, l, v), SetEntry(g, l, Grow(g, l, t, v, k, pool).t, v, k, Leaf(pa));
    if l < k {
      if t.ents[i].Sub? {
        FillPruned(g, l + 1, t.ents[i].t, v, k, pool, pa);
      } else {
        var (s, pool') := NewTable(g, l + 1, pool);
        EmptyTableBlocks(g, l + 1, s.value);
        FillPruned(g, l + 1, s.value, v, k, pool', pa);
      }
    }
    assert !u.ents[i].Invalid?;
  }

  /** Linking through and filling invalid entries only adds to the tree. */
  lemma {:induction false} FillExtends(g: Geometry, l: nat, t: Table, v: nat, k: nat, pool: Pool, pa: nat)
    requires Known(g) && WF(g, l, t) && l <= k <= MAX_LEVEL && pool.Valid() && PaOk(pa)
    requires !LeafAbove(g, l, t, v, k) && Grow(g, l, t, v, k, pool).ok
    requires HasPath(g, l, t, v, k) ==> EntryAt(g, l, t, v, k).Invalid?
    ensures Extends(t, SetEntry(g, l, Grow(g, l, t, v, k, pool).t, v, k, Leaf(pa)))
    decreases k - l
  {
    hide Tiling, PlaceOk, Index, NewTable;
    var i, u := Index(g, l, v), SetEntry(g, l, Grow(g, l, t, v, k, pool).t, v, k, Leaf(pa));
    if l < k && t.ents[i].Sub? {
      FillExtends(g, l + 1, t.ents[i].t, v, k, pool, pa);
    }
    ExtendsElsewhere(t, u, i);
  }

  lemma ExtendsElsewhere(t: Table, u: Table, i: nat)
    requires u.addr == t.addr && |u.ents| == |t.ents| && i < |t.ents| && u.ents == t.ents[i := u.ents[i]]
    requires !t.ents[i].Leaf? && (t.ents[i].Sub? ==> u.ents[i].Sub? && Extends(t.ents[i].t, u.ents[i].t))
    ensures Extends(t, u)
  {
    forall j | 0 <= j < |t.ents| && t.ents[j].Sub?
      ensures u.ents[j].Sub? && Extends(t.ents[j].t, u.ents[j].t)
    {
      if j != i {
        ExtendsSelf(t.ents[j].t);
      }
    }
  }

  ghost function LookupRoot(g: Geometry, t: Table, x: nat): Option<Hit>
    requires WF(g, g.startLevel, t)
  {
    Lookup(g, g.startLevel, t, x)
  }

  /** No address of `[v, v + size)` is mapped. */
  ghost predicate Unmapped(g: Geometry, t: Table, v: nat, size: nat)
    requires WF(g, g.startLevel, t)
  {
    forall x: nat | v <= x < v + size :: LookupRoot(g, t, x).None?
  }

  /** In a pruned tree, an existing entry for an unmapped block is invalid. */
  lemma FreeChunk(g: Geometry, t: Table, v: nat, k: nat)
    requires Known(g) && AtLevel(g, k) && WF(g, g.startLevel, t) && Pruned(t)
    requires OnBlock(g, k, v) && v + BlockSize(g, k) <= WORD
    requires HasPath(g, g.startLevel, t, v, k)
    ensures EntryAt(g, g.startLevel, t, v, k).Invalid? <==> Unmapped(g, t, v, BlockSize(g, k))
    ensures !EntryAt(g, g.startLevel, t, v, k).Invalid? ==>
      exists x: nat :: v <= x < v + BlockSize(g, k) && LookupRoot(g, t, x).Some?
                       && LookupRoot(g, t, x).value.level >= k
  {
    hide BlockSize, Index, PlaceOk;
    var e := EntryAt(g, g.startLevel, t, v, k);
    if e.Invalid? {
      forall x: nat | v <= x < v + BlockSize(g, k)
        ensures LookupRoot(g, t, x).None?
      {
        ViaBlock(g, t, v, k, x);
      }
    } else {
      var x := v;
      if e.Sub? {
        PathPruned(g, g.startLevel, t, v, k);
        x := NonEmptyMaps(g, k + 1, e.t, v);
        LookupLevel(g, k + 1, e.t, x);
      }
      ViaBlock(g, t, v, k, x);
      assert LookupRoot(g, t, x).Some?;
    }
  }

  lemma ViaBlock(g: Geometry, t: Table, v: nat, k: nat, x: nat)
    requires Known(g) && AtLevel(g, k) && WF(g, g.startLevel, t) && HasPath(g, g.startLevel, t, v, k)
    requires OnBlock(g, k, v) && v <= x < v + BlockSize(g, k) && x < WORD
    ensures Lookup(g, g.startLevel, t, x) == LookupEntry(g, k, EntryAt(g, g.startLevel, t, v, k), x)
  {
    hide BlockSize, Index, PlaceOk;
    PathIsBlock(g, k, v, x);
    LookupVia(g, g.startLevel, t, v, k, x);
  }

  lemma {:induction false} PathPruned(g: Geometry, l: nat, t: Table, v: nat, k: nat)
    requires WF(g, l, t) && HasPath(g, l, t, v, k) && Pruned(t)
    ensures Pruned(TableAt(g, l, t, v, k))
    ensures EntryAt(g, l, t, v, k).Sub? ==> NonEmpty(EntryAt(g, l, t, v, k).t) && Pruned(EntryAt(g, l, t, v, k).t)
    decreases t
  {
    if l < k {
      PathPruned(g, l + 1, t.ents[Index(g, l, v)].t, v, k);
    }
  }
}
