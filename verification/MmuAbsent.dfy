/** What `mmu_unmap` answers for any region, mapped or not, and how far it gets. */
module MmuAbsent {
  import opened Words
  import opened Bits
  import opened MmuGeometry
  import opened MmuTree
  import opened MmuMap
  import opened MmuRefine
  import opened MmuOverlap
  import opened MmuTables
  import opened MmuUnmap
  import opened MmuRestore
  import opened MmuRun
  import opened Balloc

  /** Unlinking tables changes no lookup, even when one cannot be returned. */
  lemma {:induction false} BackWalkLookup(g: Geometry, l: nat, t: Table, v: nat, k: nat, pool: Pool, x: nat)
    requires WF(g, l, t) && HasPath(g, l, t, v, k)
    ensures Lookup(g, l, BackWalk(g, l, t, v, k, pool).t, x) == Lookup(g, l, t, x)
    decreases k - l
  {
    hide PlaceOk, Index, Pool.Give;
    if l < k {
      var s := t.ents[Index(g, l, v)].t;
      BackWalkLookup(g, l + 1, s, v, k, pool, x);
      var r := BackWalk(g, l + 1, s, v, k, pool);
      if !NonEmpty(r.t) {
        assert r.t.ents[Index(g, l + 1, x)].Invalid?;
      }
    }
  }

  lemma PieceGone(g: Geometry, t: Table, v: nat, k: nat, pool: Pool)
    requires Known(g) && AtLevel(g, k) && WF(g, g.startLevel, t) && HasPath(g, g.startLevel, t, v, k)
    requires OnBlock(g, k, v) && v + BlockSize(g, k) <= WORD && UnmapPiece(g, t, v, k, pool).rc != Missing
    ensures Removes(g, t, UnmapPiece(g, t, v, k, pool).t, v, BlockSize(g, k))
  {
    hide BlockSize, Index, PlaceOk, BackWalk, SetEntry, SamePath;
    PathAfterSet(g, g.startLevel, t, v, k, Invalid, k);
    forall x: nat | x < WORD
      ensures LookupRoot(g, UnmapPiece(g, t, v, k, pool).t, x) ==
              if v <= x < v + BlockSize(g, k) then None else LookupRoot(g, t, x)
    {
      PathIsBlock(g, k, v, x);
      LookupSet(g, g.startLevel, t, v, k, Invalid, x);
      BackWalkLookup(g, g.startLevel, SetEntry(g, g.startLevel, t, v, k, Invalid), v, k, pool, x);
    }
  }

  /** Removing a piece: refused, with nothing changed, exactly when nothing is there; otherwise
      the piece is unmapped and nothing else. As many unused slots as there are tables are
      always enough for none to fail to be returned. */
  lemma PieceExact(g: Geometry, t: Table, v: nat, k: nat, pool: Pool)
    requires Sound(g, t, pool) && Pruned(t) && AtLevel(g, k) && OnBlock(g, k, v) && v + BlockSize(g, k) <= WORD
    ensures var r := UnmapPiece(g, t, v, k, pool);
            && (r.rc == Missing <==> !MappedFrom(g, t, v, k))
            && (r.rc == Missing ==> r.t == t && r.pool == pool)
            && (r.rc != Missing ==> Removes(g, t, r.t, v, BlockSize(g, k)))
            && (r.rc == Removed ==> Pruned(r.t))
            && (Enough(g, t, pool) ==> r.rc != FreeFailed && Enough(g, r.t, r.pool))
  {
    hide BlockSize, Index, PlaceOk, Prune, Blocks, NoSharing, Tiling, BackWalk, Frees, Unused, Pool.Give, SetEntry,
      Pruned, HasPath, EntryAt, MappedFrom, Removes, OnBlock;
    PieceThere(g, t, v, k);
    if MappedFrom(g, t, v, k) {
      PathAfterSet(g, g.startLevel, t, v, k, Invalid, k);
      var u := SetEntry(g, g.startLevel, t, v, k, Invalid);
      SetEntryBlocks(g, g.startLevel, t, v, k, Invalid);
      BackWalkBlocks(g, g.startLevel, u, v, k, pool);
      BackWalkSucceeds(g, g.startLevel, u, v, k, pool);
      PruneBlocks(g, g.startLevel, u, v, k);
      PieceGone(g, t, v, k, pool);
      ClearedOffPath(g, g.startLevel, t, v, k);
      PruneIsPruned(g, g.startLevel, u, v, k);
      Smaller(Blocks(g, g.startLevel, u), Blocks(g, g.startLevel, t));
      CountUnion(Blocks(g, g.startLevel, Prune(g, g.startLevel, u, v, k)), Blocks(g, g.startLevel, u));
    }
  }

  /** An unused slot for every table. */
  ghost predicate Enough(g: Geometry, t: Table, pool: Pool)
    requires WF(g, g.startLevel, t)
  {
    Unused(pool.fb) >= |Blocks(g, g.startLevel, t)|
  }

  /** Bytes of the region up to the first piece that is not there. */
  ghost function Present(g: Geometry, t: Table, v: nat, sz: nat): (n: nat)
    requires Known(g) && WF(g, g.startLevel, t) && WholePages(g, v, sz)
    ensures n <= sz
    decreases sz
  {
    hide BlockSize, PageSize, Aligned;
    ChunkFits(g, v, sz);
    var k := ChunkLevel(g, g.startLevel, v, sz);
    var b := BlockSize(g, k);
    if !MappedFrom(g, t, v, k) then 0 else b + if b < sz then Present(g, t, v + b, sz - b) else 0
  }

  lemma PresentStep(g: Geometry, t: Table, v: nat, sz: nat, k: nat, b: nat)
    requires Known(g) && WF(g, g.startLevel, t) && WholePages(g, v, sz)
    requires k == ChunkLevel(g, g.startLevel, v, sz) && b == BlockSize(g, k)
    requires b < sz ==> WholePages(g, v + b, sz - b)
    ensures Present(g, t, v, sz) ==
              if !MappedFrom(g, t, v, k) then 0 else b + if b < sz then Present(g, t, v + b, sz - b) else 0
  {
    hide BlockSize, PageSize, Aligned, ChunkLevel, WF, MappedFrom;
  }

  /** Removing one piece does not change what is there of later ones. */
  lemma {:induction false} PresentAfter(g: Geometry, t: Table, u: Table, v: nat, b: nat, w: nat, sz: nat)
    requires Known(g) && WF(g, g.startLevel, t) && WF(g, g.startLevel, u) && Removes(g, t, u, v, b) && v + b <= w
    requires WholePages(g, w, sz) && OnPage(g, w)
    ensures Present(g, u, w, sz) == Present(g, t, w, sz)
    decreases sz
  {
    hide BlockSize, PageSize, Aligned, OnPage, OnBlock, ChunkLevel, WF, Known, Present, WholePages, LookupRoot;
    BelowWord(g, w, sz);
    var k, c := FirstPiece(g, w, sz);
    PresentStep(g, t, w, sz, k, c);
    PresentStep(g, u, w, sz, k, c);
    forall x: nat | w <= x < w + c
      ensures LookupRoot(g, u, x) == LookupRoot(g, t, x)
    {
    }
    if c < sz {
      PresentAfter(g, t, u, v, b, w + c, sz - c);
    }
  }

  /** Every call of `mmu_unmap` over a tree as maps and unmaps leave it: when no table fails to
      be returned, it reports success exactly when every piece is there, and unmaps exactly the
      pieces before the first that is not. A table that cannot be returned stops it behind a
      piece. */
  lemma {:induction false} UnmapExact(g: Geometry, t: Table, v: nat, sz: nat, pool: Pool)
    requires Sound(g, t, pool) && Pruned(t) && WholePages(g, v, sz) && OnPage(g, v)
    ensures var r, n := UnmapAll(g, t, v, sz, pool), Present(g, t, v, sz);
            && n <= sz
            && (r.rc != FreeFailed ==> (r.rc == Removed <==> n == sz) && Removes(g, t, r.t, v, n) && Pruned(r.t))
            && (r.rc == FreeFailed ==> exists m: nat :: 0 < m <= n && Removes(g, t, r.t, v, m))
            && (Enough(g, t, pool) ==> r.rc != FreeFailed)
    decreases sz
  {
    hide BlockSize, PageSize, Aligned, OnPage, OnBlock, ChunkLevel, WF, Known, Present, WholePages, LookupRoot,
      MappedFrom, UnmapPiece, UnmapAll, Pruned, Tiling, NoSharing, Blocks, Enough, Sound, Removes;
    SoundIs(g, t, pool);
    BelowWord(g, v, sz);
    var k, b := FirstPiece(g, v, sz);
    PresentStep(g, t, v, sz, k, b);
    UnmapAllStep(g, t, v, sz, pool, k, b);
    PieceExact(g, t, v, k, pool);
    UnmapPieceKeepsSound(g, t, v, k, pool);
    var r := UnmapPiece(g, t, v, k, pool);
    NothingRemoved(g, t, v);
    if r.rc == Removed && b < sz {
      UnmapExact(g, r.t, v + b, sz - b, r.pool);
      PresentAfter(g, t, r.t, v, b, v + b, sz - b);
      var last := UnmapAll(g, r.t, v + b, sz - b, r.pool);
      var m := Present(g, r.t, v + b, sz - b);
      if last.rc == FreeFailed {
        m :| 0 < m <= Present(g, r.t, v + b, sz - b) && Removes(g, r.t, last.t, v + b, m);
      }
      RemovesTrans(g, t, r.t, last.t, v, b, b + m);
    }
  }

  lemma NothingRemoved(g: Geometry, t: Table, v: nat)
    requires WF(g, g.startLevel, t)
    ensures Removes(g, t, t, v, 0)
  {
    hide LookupRoot;
  }
}
