/** A concrete run from a fresh context: a page laid over a block takes the whole block away. */
module MmuReplaced {
  import opened Words
  import opened Arith
  import opened Bits
  import opened MmuGeometry
  import opened MmuTree
  import opened MmuMap
  import opened MmuRefine
  import opened MmuOverlap
  import opened MmuTables
  import opened MmuRun
  import opened Balloc

  const MIB := 0x10_0000

  /** The 4 KiB granule's constants. */
  lemma SmallGranule()
    ensures var g := GeometryOf(G4K);
            && Known(g) && g.startLevel == 1 && PageSize(g) == 0x1000 && TableBytes(g, 1) == 32
            && BlockSize(g, 1) == 0x4000_0000 && BlockSize(g, 2) == 2 * MIB && BlockSize(g, 3) == 0x1000
  {
    hide Pow2;
    Pow2Values();
    GranulesKnown(G4K);
  }

  /** Two MiB at 0 are one block of level 2, the first page of it one page of level 3. */
  lemma Chunks()
    ensures var g := GeometryOf(G4K); ChunkLevel(g, 1, 0, 2 * MIB) == 2 && ChunkLevel(g, 1, 0, 0x1000) == 3
  {
    SmallGranule();
    hide GeometryOf, BlockSize;
    var g := GeometryOf(G4K);
    assert Aligned(0, BlockSize(g, 1)) && Aligned(0, BlockSize(g, 2)) by {
      AlignedIsMultiple(0, BlockSize(g, 1));
      AlignedIsMultiple(0, BlockSize(g, 2));
    }
    hide Aligned;
    assert ChunkLevel(g, 1, 0, 2 * MIB) == ChunkLevel(g, 2, 0, 2 * MIB) == 2;
    assert ChunkLevel(g, 1, 0, 0x1000) == ChunkLevel(g, 2, 0, 0x1000) == ChunkLevel(g, 3, 0, 0x1000) == 3;
  }

  /** In every fresh context of the 4 KiB granule with eight pages to spare: mapping 2 MiB at 0
      and then 4 KiB at 0 both succeed, and address 0x1000 is no longer translated. */
  lemma BlockReplaced(t0: Table, pool: Pool, p: nat, q: nat)
    requires Fresh(GeometryOf(G4K), t0, pool) && CanTake(GeometryOf(G4K), pool.fb, 8)
    requires p + 2 * MIB <= MAX_PA && q + 0x1000 <= MAX_PA
    ensures var g := GeometryOf(G4K);
            && MapArgs(g, 0, p, 2 * MIB) && MapArgs(g, 0, q, 0x1000)
            && var m := MapAll(g, t0, 0, p, 2 * MIB, pool);
               var r := MapAll(g, m.t, 0, q, 0x1000, m.pool);
               && m.rc == Mapped && LookupRoot(g, m.t, 0x1000).Some?
               && r.rc == Mapped && LookupRoot(g, r.t, 0x1000).None?
  {
    SmallGranule();
    Chunks();
    hide GeometryOf, BlockSize, PageSize, Aligned, ChunkLevel, WF, Pruned, NoSharing, Blocks, Tiling, Extends,
      CanTake, TakeTimes, Lookup, SamePath, Needs, Collides, MapAll, Known, TableBytes, Entries, MmuGeometry.Span,
      PiecePlaces;
    var g := GeometryOf(G4K);
    FreshMapsNothing(g, t0, pool, 0, 2 * MIB);
    NeedsAreFew(g, t0, 0, 2 * MIB);
    Fewer(g, pool.fb, |Needs(g, t0, 0, 2 * MIB)|, 8);
    MapExact(g, t0, 0, p, 2 * MIB, pool);
    var m := MapAll(g, t0, 0, p, 2 * MIB, pool);
    forall x: nat | x < 2 * MIB
      ensures LookupRoot(g, m.t, x) == Some(Hit(2, PaField(p)))
    {
      RegionHitStep(g, 0, p, 2 * MIB, 2, 2 * MIB, x);
    }
    OutcomeExact(g, t0, 0, p, 2 * MIB, pool);
    NeedsAreFew(g, m.t, 0, 0x1000);
    TakeInTurn(g, pool.fb, |Needs(g, t0, 0, 2 * MIB)|, 4);
    Fewer(g, pool.fb, |Needs(g, t0, 0, 2 * MIB)| + 4, 8);
    Fewer(g, m.pool.fb, |Needs(g, m.t, 0, 0x1000)|, 4);
    RegionStep(g, m.t, 0, 0x1000, 3, 0x1000);
    assert !Collides(g, m.t, 0, 0x1000);
    OutcomeExact(g, m.t, 0, q, 0x1000, m.pool);
    CallLookups(g, m.t, 0, q, 0x1000, m.pool, 0x1000);
    SwallowedStep(g, m.t, 0, 0x1000, 3, 0x1000, 0x1000);
    PathIsBlock(g, 2, 0, 0x1000);
    assert LookupRoot(g, m.t, 0) == Some(Hit(2, PaField(p)));
    assert InBlockMet(g, g.startLevel, m.t, 0, 3, 0x1000);
  }

  lemma Fewer(g: Geometry, fb: seq<Block>, m: nat, n: nat)
    requires Known(g) && m <= n && CanTake(g, fb, n)
    ensures CanTake(g, fb, m)
  {
    TakeInTurn(g, fb, m, n - m);
  }

  lemma {:induction false} NoneUsed(fb: seq<Block>)
    requires forall i | 0 <= i < |fb| :: fb[i] == NO_BLOCK
    ensures Unused(fb) == |fb|
  {
    if |fb| > 0 {
      NoneUsed(fb[1..]);
    }
  }

  /** Such contexts exist: one MiB of table memory, from which the root table was taken. */
  lemma FreshContext() returns (t0: Table, pool: Pool)
    ensures Fresh(GeometryOf(G4K), t0, pool) && CanTake(GeometryOf(G4K), pool.fb, 8)
  {
    SmallGranule();
    hide GeometryOf;
    var g := GeometryOf(G4K);
    var none := seq(MAX_BLOCKS, i => NO_BLOCK);
    NoneUsed(none);
    var fb := none[0 := Block(0x1000_0000, MIB)];
    OneBlockTiles(fb, Block(0x1000_0000, MIB));
    var empty := Pool(fb, {}, 0x1000_0000, 0x1010_0000);
    empty.TakeSafe(32, 0x1000);
    AlignedIsMultiple(0x1000_0000, 0x1000);
    pool := empty.Take(32, 0x1000).1;
    assert empty.Take(32, 0x1000).0 == 0x1000_0000;
    assert pool.fb == none[0 := Block(0x1000_0020, MIB - 32)];
    t0 := EmptyTable(g, 1, 0x1000_0000);
    EmptyTableBlocks(g, 1, t0);
    UnusedUpdate(none, 0, Block(0x1000_0020, MIB - 32));
    assert PagesIn(g, pool.fb, 0, 8);
    RoomTakes(g, pool, 0, 8, 8);
  }

  /** The loss, from nothing. */
  lemma SilentLoss() returns (t0: Table, pool: Pool)
    ensures var g := GeometryOf(G4K);
            && Fresh(g, t0, pool) && MapArgs(g, 0, 0, 2 * MIB) && MapArgs(g, 0, 0, 0x1000)
            && var m := MapAll(g, t0, 0, 0, 2 * MIB, pool);
               var r := MapAll(g, m.t, 0, 0, 0x1000, m.pool);
               && m.rc == Mapped && LookupRoot(g, m.t, 0x1000).Some?
               && r.rc == Mapped && LookupRoot(g, r.t, 0x1000).None?
  {
    t0, pool := FreshContext();
    BlockReplaced(t0, pool, 0, 0);
  }
}
