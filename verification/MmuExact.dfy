/** When the addresses of a mapped region are translated as the caller asked. */
module MmuExact {
  import opened Words
  import opened Arith
  import opened Bits
  import opened MmuGeometry
  import opened MmuTree
  import opened MmuMap
  import opened MmuRefine
  import opened MmuOverlap
  import opened MmuTables
  import opened Balloc

  /** The address the SMMU puts out for `x`: high bits from the descriptor, low bits from the
      virtual address. */
  function Output(g: Geometry, h: Hit, x: nat): (y: nat)
  {
    RoundDown(h.pa, BlockSize(g, h.level)) + x % BlockSize(g, h.level)
  }

  ghost function Translate(g: Geometry, t: Table, x: nat): Option<nat>
    requires WF(g, g.startLevel, t)
  {
    match LookupRoot(g, t, x)
    case None => None
    case Some(h) => Some(Output(g, h, x))
  }

  /** Physical and virtual address agree modulo the block size of every piece. */
  predicate Congruent(g: Geometry, v: nat, p: nat, sz: nat)
    requires Known(g) && MapArgs(g, v, p, sz)
    decreases sz
  {
    hide BlockSize, PageSize, Aligned;
    var k := ChunkLevel(g, g.startLevel, v, sz);
    ChunkFits(g, v, sz);
    var b := BlockSize(g, k);
    OnBlock(g, k, p) && (b < sz ==> Congruent(g, v + b, p + b, sz - b))
  }

  /** Every address of the region goes where the caller asked. */
  ghost predicate Linear(g: Geometry, v: nat, p: nat, sz: nat)
    requires Known(g) && MapArgs(g, v, p, sz)
  {
    forall x: nat | v <= x < v + sz :: Output(g, RegionHit(g, v, p, sz, x), x) == p + (x - v)
  }

  lemma PieceOutput(g: Geometry, k: nat, v: nat, p: nat, x: nat)
    requires Known(g) && AtLevel(g, k) && OnBlock(g, k, v) && v <= x < v + BlockSize(g, k)
    ensures OnBlock(g, k, p) ==> Output(g, Hit(k, PaField(p)), x) == p + (x - v)
    ensures !OnBlock(g, k, p) ==> Output(g, Hit(k, PaField(p)), v) < p
  {
    hide BlockSize, PageSize, Entries, MmuGeometry.Span, TableBytes;
    LevelSizes(g, k);
    var b := BlockSize(g, k);
    DivBounds(v, b);
    DivBounds(p, b);
    DivUnique(x, b, v / b);
    RoundDownBounds(PaField(p), b);
    RoundDownBounds(p, b);
    if OnBlock(g, k, p) {
      MultipleOfPages(p, b);
    } else if RoundDown(PaField(p), b) == p {
      DivUnique(p, b, PaField(p) / b);
    }
  }

  lemma MultipleOfPages(p: nat, b: nat)
    requires b > 0 && b % 4096 == 0 && p % b == 0
    ensures PaField(p) == p
  {
    DivBounds(p, b);
    DivBounds(b, 4096);
    assert p == p / b * (b / 4096) * 4096 by { MulAssoc(p / b, b / 4096, 4096); }
    DivUnique(p, 4096, p / b * (b / 4096));
  }

  /** The region is translated as asked exactly when every piece is congruent. */
  lemma {:induction false} TranslationExact(g: Geometry, v: nat, p: nat, sz: nat)
    requires Known(g) && MapArgs(g, v, p, sz) && OnPage(g, v)
    ensures Linear(g, v, p, sz) <==> Congruent(g, v, p, sz)
    decreases sz
  {
    hide BlockSize, PageSize, Aligned, OnBlock, OnPage, ChunkLevel, RegionHit, Output, Linear, MapArgs, AtLevel,
      Congruent, PaField;
    var k, b := Piece(g, v, p, sz);
    if b < sz {
      TranslationExact(g, v + b, p + b, sz - b);
    }
    CongruentStep(g, v, p, sz, k, b);
    if OnBlock(g, k, p) && (b < sz ==> Linear(g, v + b, p + b, sz - b)) {
      LinearJoin(g, v, p, sz, k, b);
    } else {
      LinearSplit(g, v, p, sz, k, b);
    }
  }

  lemma CongruentStep(g: Geometry, v: nat, p: nat, sz: nat, k: nat, b: nat)
    requires Known(g) && MapArgs(g, v, p, sz) && k == ChunkLevel(g, g.startLevel, v, sz) && b == BlockSize(g, k)
    requires b < sz ==> MapArgs(g, v + b, p + b, sz - b)
    ensures Congruent(g, v, p, sz) <==> OnBlock(g, k, p) && (b < sz ==> Congruent(g, v + b, p + b, sz - b))
  {
    hide BlockSize, PageSize, Aligned, OnBlock, ChunkLevel, MapArgs;
  }

  lemma Piece(g: Geometry, v: nat, p: nat, sz: nat) returns (k: nat, b: nat)
    requires Known(g) && MapArgs(g, v, p, sz) && OnPage(g, v)
    ensures AtLevel(g, g.startLevel) && AtLevel(g, k) && k == ChunkLevel(g, g.startLevel, v, sz) && b == BlockSize(g, k)
    ensures 0 < b <= sz && OnBlock(g, k, v)
    ensures b < sz ==> MapArgs(g, v + b, p + b, sz - b) && OnPage(g, v + b)
  {
    hide BlockSize, PageSize, OnBlock, OnPage, ChunkLevel, WholePages;
    k, b := FirstPiece(g, v, sz);
  }

  lemma LinearJoin(g: Geometry, v: nat, p: nat, sz: nat, k: nat, b: nat)
    requires Known(g) && MapArgs(g, v, p, sz) && AtLevel(g, k) && k == ChunkLevel(g, g.startLevel, v, sz)
    requires b == BlockSize(g, k) && 0 < b <= sz && OnBlock(g, k, v) && OnBlock(g, k, p)
    requires b < sz ==> MapArgs(g, v + b, p + b, sz - b) && Linear(g, v + b, p + b, sz - b)
    ensures Linear(g, v, p, sz)
  {
    hide BlockSize, PageSize, Aligned, OnBlock, ChunkLevel, RegionHit, Output, MapArgs, PaField;
    forall x: nat | v <= x < v + sz
      ensures Output(g, RegionHit(g, v, p, sz, x), x) == p + (x - v)
    {
      RegionHitStep(g, v, p, sz, k, b, x);
      if x < v + b {
        PieceOutput(g, k, v, p, x);
      }
    }
  }

  lemma LinearSplit(g: Geometry, v: nat, p: nat, sz: nat, k: nat, b: nat)
    requires Known(g) && MapArgs(g, v, p, sz) && AtLevel(g, k) && k == ChunkLevel(g, g.startLevel, v, sz)
    requires b == BlockSize(g, k) && 0 < b <= sz && OnBlock(g, k, v)
    requires b < sz ==> MapArgs(g, v + b, p + b, sz - b)
    requires !OnBlock(g, k, p) || (b < sz && !Linear(g, v + b, p + b, sz - b))
    ensures !Linear(g, v, p, sz)
  {
    hide BlockSize, PageSize, Aligned, OnBlock, ChunkLevel, RegionHit, Output, MapArgs, PaField;
    var x := v;
    if !OnBlock(g, k, p) {
      PieceOutput(g, k, v, p, v);
    } else {
      x :| v + b <= x < v + b + (sz - b)
          && Output(g, RegionHit(g, v + b, p + b, sz - b, x), x) != p + b + (x - (v + b));
    }
    RegionHitStep(g, v, p, sz, k, b, x);
    assert Output(g, RegionHit(g, v, p, sz, x), x) != p + (x - v);
  }

  /** What a map of an unmapped, congruent region means to the hardware when there are tables
      enough: it succeeds, with `p + k` at `v + k` and everything else as before. */
  lemma MapTranslates(g: Geometry, t: Table, v: nat, p: nat, sz: nat, pool: Pool, x: nat)
    requires Sound(g, t, pool) && Pruned(t) && MapArgs(g, v, p, sz) && OnPage(g, v) && Unmapped(g, t, v, sz)
    requires TablesSuffice(g, t, v, sz, pool) && Congruent(g, v, p, sz) && x < WORD
    ensures var r := MapAll(g, t, v, p, sz, pool);
            r.rc == Mapped && Translate(g, r.t, x) == if v <= x < v + sz then Some(p + (x - v)) else Translate(g, t, x)
  {
    hide BlockSize, PageSize, OnPage, Tiling, NoSharing, Blocks, Pruned, MapAll, RegionHit, Output, WF, LookupRoot,
      Congruent, WholePages, Needs, CanTake;
    MapExact(g, t, v, p, sz, pool);
    TranslationExact(g, v, p, sz);
  }
}
