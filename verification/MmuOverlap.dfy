/** Maps over what is already mapped: what happens to every other address, and when a larger
    block that is in the way is silently lost. */
module MmuOverlap {
  import opened Words
  import opened Arith
  import opened Bits
  import opened MmuGeometry
  import opened MmuTree
  import opened MmuMap
  import opened MmuRefine
  import opened Balloc

  /** The first piece of a region and what is left of it. */
  lemma FirstPiece(g: Geometry, v: nat, sz: nat) returns (k: nat, b: nat)
    requires Known(g) && WholePages(g, v, sz) && OnPage(g, v)
    ensures AtLevel(g, g.startLevel) && AtLevel(g, k) && k == ChunkLevel(g, g.startLevel, v, sz) && b == BlockSize(g, k)
    ensures 0 < b <= sz && OnBlock(g, k, v) && v + sz <= WORD
    ensures b < sz ==> WholePages(g, v + b, sz - b) && OnPage(g, v + b)
  {
    hide BlockSize, PageSize, Aligned, ChunkLevel;
    k := ChunkLevel(g, g.startLevel, v, sz);
    b := BlockSize(g, k);
    ChunkFits(g, v, sz);
    ChunkAligned(g, v, sz);
  }

  /** Addresses on the path of a leaf lead to it. */
  lemma {:induction false} SameLeaf(g: Geometry, l: nat, t: Table, v: nat, x: nat)
    requires WF(g, l, t) && Lookup(g, l, t, v).Some?
    ensures l <= Lookup(g, l, t, v).value.level <= MAX_LEVEL
    ensures SamePath(g, l, Lookup(g, l, t, v).value.level, v, x) ==> Lookup(g, l, t, x) == Lookup(g, l, t, v)
    decreases t
  {
    LookupLevel(g, l, t, v);
    var e := t.ents[Index(g, l, v)];
    if e.Sub? {
      SameLeaf(g, l + 1, e.t, v, x);
    }
  }

  /** `x` lies in a block above level `k` that the walk for `v` stops at. */
  ghost predicate InBlockMet(g: Geometry, l: nat, t: Table, v: nat, k: nat, x: nat)
    requires WF(g, l, t)
  {
    LookupLevel(g, l, t, v);
    LeafAbove(g, l, t, v, k) && SamePath(g, l, Lookup(g, l, t, v).value.level, v, x)
  }

  /** Linking through a larger block loses all of that block and nothing else. */
  lemma {:induction false} GrowExact(g: Geometry, l: nat, t: Table, v: nat, k: nat, pool: Pool, x: nat)
    requires Known(g) && WF(g, l, t) && l <= k <= MAX_LEVEL && pool.Valid() && Grow(g, l, t, v, k, pool).ok
    ensures Lookup(g, l, Grow(g, l, t, v, k, pool).t, x)
            == if InBlockMet(g, l, t, v, k, x) then None else Lookup(g, l, t, x)
    decreases k - l
  {
    hide Tiling, PlaceOk, Index, Grow, NewTable;
    LookupLevel(g, l, t, v);
    var i := Index(g, l, v);
    if l == k {
      GrowNothing(g, l, t, v, pool);
    } else if t.ents[i].Sub? {
      LookupLevel(g, l + 1, t.ents[i].t, v);
      GrowThrough(g, l, t, v, k, pool);
      GrowExact(g, l + 1, t.ents[i].t, v, k, pool, x);
    } else {
      GrowNew(g, l, t, v, k, pool);
      var (s, pool') := NewTable(g, l + 1, pool);
      FreshLookup(g, l + 1, s.value, v);
      FreshLookup(g, l + 1, s.value, x);
      GrowExact(g, l + 1, s.value, v, k, pool', x);
    }
  }

  lemma FreshLookup(g: Geometry, l: nat, t: Table, x: nat)
    requires WF(g, l, t) && t == EmptyTable(g, l, t.addr)
    ensures Lookup(g, l, t, x).None?
  {
  }

  /** Every address after one piece was entered. */
  ghost predicate PieceEntered(g: Geometry, t: Table, u: Table, v: nat, k: nat, hit: Hit)
    requires WF(g, g.startLevel, t) && WF(g, g.startLevel, u)
  {
    forall x: nat | x < WORD ::
      LookupRoot(g, u, x) ==
        if v <= x < v + BlockSize(g, k) then Some(hit)
        else if InBlockMet(g, g.startLevel, t, v, k, x) then None
        else LookupRoot(g, t, x)
  }

  lemma PieceLookups(g: Geometry, t: Table, v: nat, p: nat, k: nat, pool: Pool)
    requires Known(g) && WF(g, g.startLevel, t) && pool.Valid() && AtLevel(g, k) && p < MAX_PA
    requires OnBlock(g, k, v) && v + BlockSize(g, k) <= WORD
    requires MapPiece(g, t, v, p, k, pool).rc == Mapped
    ensures PieceEntered(g, t, MapPiece(g, t, v, p, k, pool).t, v, k, Hit(k, PaField(p)))
  {
    hide BlockSize, WF, Tiling, MapPiece, InBlockMet, OnBlock, LookupRoot;
    var u := MapPiece(g, t, v, p, k, pool).t;
    forall x: nat | x < WORD
      ensures LookupRoot(g, u, x) ==
        if v <= x < v + BlockSize(g, k) then Some(Hit(k, PaField(p)))
        else if InBlockMet(g, g.startLevel, t, v, k, x) then None
        else LookupRoot(g, t, x)
    {
      PieceLookup(g, t, v, p, k, pool, x);
    }
  }

  lemma PieceLookup(g: Geometry, t: Table, v: nat, p: nat, k: nat, pool: Pool, x: nat)
    requires Known(g) && WF(g, g.startLevel, t) && pool.Valid() && AtLevel(g, k) && p < MAX_PA && x < WORD
    requires OnBlock(g, k, v) && v + BlockSize(g, k) <= WORD
    requires MapPiece(g, t, v, p, k, pool).rc == Mapped
    ensures LookupRoot(g, MapPiece(g, t, v, p, k, pool).t, x) ==
      if v <= x < v + BlockSize(g, k) then Some(Hit(k, PaField(p)))
      else if InBlockMet(g, g.startLevel, t, v, k, x) then None
      else LookupRoot(g, t, x)
  {
    hide BlockSize, Index, PlaceOk, Pool.Valid, Grow, SamePath, InBlockMet, HasPath, EntryAt, Lookup, OnBlock, WF,
      PaField, Known, SetEntry, MapPiece;
    PathIsBlock(g, k, v, x);
    Entered(g, t, v, p, k, pool);
    var grown := Grow(g, g.startLevel, t, v, k, pool);
    FilledLookup(g, grown.t, v, p, k, x);
    GrowExact(g, g.startLevel, t, v, k, pool, x);
  }

  /** What entering a piece comes to. */
  lemma Entered(g: Geometry, t: Table, v: nat, p: nat, k: nat, pool: Pool)
    requires Known(g) && WF(g, g.startLevel, t) && pool.Valid() && AtLevel(g, k) && p < MAX_PA
    requires MapPiece(g, t, v, p, k, pool).rc == Mapped
    ensures var r := Grow(g, g.startLevel, t, v, k, pool);
            && r.ok && EntryAt(g, g.startLevel, r.t, v, k).Invalid?
            && MapPiece(g, t, v, p, k, pool).t == SetEntry(g, g.startLevel, r.t, v, k, Leaf(PaField(p)))
  {
    hide Tiling, PlaceOk;
  }

  lemma FilledLookup(g: Geometry, t: Table, v: nat, p: nat, k: nat, x: nat)
    requires WF(g, g.startLevel, t) && HasPath(g, g.startLevel, t, v, k) && p < MAX_PA
    ensures Lookup(g, g.startLevel, SetEntry(g, g.startLevel, t, v, k, Leaf(PaField(p))), x)
            == if SamePath(g, g.startLevel, k, v, x) then Some(Hit(k, PaField(p))) else Lookup(g, g.startLevel, t, x)
  {
    hide BlockSize, Index, PlaceOk, SamePath, Lookup, WF, PaField, SetEntry, HasPath;
    LookupSet(g, g.startLevel, t, v, k, Leaf(PaField(p)), x);
  }

  /** Some piece of the region meets a larger block that `x` lies in. */
  ghost predicate Swallowed(g: Geometry, t: Table, v: nat, sz: nat, x: nat)
    requires Known(g) && WF(g, g.startLevel, t) && WholePages(g, v, sz)
    decreases sz
  {
    hide BlockSize, PageSize, Aligned;
    ChunkFits(g, v, sz);
    var k := ChunkLevel(g, g.startLevel, v, sz);
    var b := BlockSize(g, k);
    InBlockMet(g, g.startLevel, t, v, k, x) || (b < sz && Swallowed(g, t, v + b, sz - b, x))
  }

  lemma SwallowedStep(g: Geometry, t: Table, v: nat, sz: nat, k: nat, b: nat, x: nat)
    requires Known(g) && WF(g, g.startLevel, t) && WholePages(g, v, sz)
    requires k == ChunkLevel(g, g.startLevel, v, sz) && b == BlockSize(g, k)
    requires b < sz ==> WholePages(g, v + b, sz - b)
    ensures Swallowed(g, t, v, sz, x) <==>
              InBlockMet(g, g.startLevel, t, v, k, x) || (b < sz && Swallowed(g, t, v + b, sz - b, x))
  {
    hide BlockSize, PageSize, Aligned, ChunkLevel, WF, InBlockMet;
  }

  /** Which block swallows an address. */
  lemma {:induction false} SwallowedBy(g: Geometry, t: Table, v: nat, sz: nat, x: nat) returns (w: nat)
    requires Known(g) && WF(g, g.startLevel, t) && WholePages(g, v, sz) && OnPage(g, v) && Swallowed(g, t, v, sz, x)
    ensures v <= w < v + sz && InBlockMet(g, g.startLevel, t, w, MAX_LEVEL, x)
    decreases sz
  {
    hide BlockSize, PageSize, Aligned, OnPage, OnBlock, ChunkLevel, WF, WholePages, Swallowed, LookupRoot;
    var k, b := FirstPiece(g, v, sz);
    SwallowedStep(g, t, v, sz, k, b, x);
    if InBlockMet(g, g.startLevel, t, v, k, x) {
      w := v;
    } else {
      w := SwallowedBy(g, t, v + b, sz - b, x);
    }
  }

  /** Once entered, a piece is met by no later piece of the region. */
  lemma {:induction false} NotSwallowed(g: Geometry, u: Table, v: nat, k: nat, hit: Hit, w: nat, sz: nat, x: nat)
    requires Known(g) && WF(g, g.startLevel, u) && WholePages(g, w, sz) && OnPage(g, w) && AtLevel(g, k)
    requires OnBlock(g, k, v) && v + BlockSize(g, k) <= w && v <= x < v + BlockSize(g, k)
    requires LookupRoot(g, u, x) == Some(hit) && hit.level == k
    ensures !Swallowed(g, u, w, sz, x)
  {
    hide BlockSize, PageSize, Aligned, OnPage, OnBlock, ChunkLevel, WF, WholePages, Swallowed, Lookup, SamePath, Known;
    if Swallowed(g, u, w, sz, x) {
      var y := SwallowedBy(g, u, w, sz, x);
      SameLeaf(g, g.startLevel, u, y, x);
      BelowWord(g, w, sz);
      PathIsBlock(g, k, v, x);
      PathIsBlock(g, k, v, y);
      SamePathTrans(g, g.startLevel, k, v, x, y);
      SamePathTrans(g, g.startLevel, k, y, x, v);
      SamePathTrans(g, g.startLevel, k, x, y, v);
    }
  }

  lemma BelowWord(g: Geometry, v: nat, sz: nat)
    requires WholePages(g, v, sz)
    ensures 0 < sz && v + sz <= WORD
  {
  }

  /** Of the other addresses, later pieces swallow the same ones before and after. */
  lemma {:induction false} SwallowsSame(g: Geometry, t: Table, u: Table, v: nat, k: nat, hit: Hit, w: nat, sz: nat,
        x: nat)
    requires Known(g) && WF(g, g.startLevel, t) && WF(g, g.startLevel, u) && PieceEntered(g, t, u, v, k, hit)
    requires WholePages(g, w, sz) && OnPage(g, w) && v + BlockSize(g, k) <= w
    requires !InBlockMet(g, g.startLevel, t, v, k, x)
    ensures Swallowed(g, u, w, sz, x) <==> Swallowed(g, t, w, sz, x)
    decreases sz
  {
    hide BlockSize, PageSize, Aligned, OnPage, OnBlock, ChunkLevel, WF, WholePages, Swallowed, LookupRoot, InBlockMet,
      PieceEntered;
    var j, b := FirstPiece(g, w, sz);
    SwallowedStep(g, t, w, sz, j, b, x);
    SwallowedStep(g, u, w, sz, j, b, x);
    MetSame(g, t, u, v, k, hit, w, j, x);
    if b < sz {
      SwallowsSame(g, t, u, v, k, hit, w + b, sz - b, x);
    }
  }

  lemma MetSame(g: Geometry, t: Table, u: Table, v: nat, k: nat, hit: Hit, w: nat, j: nat, x: nat)
    requires Known(g) && WF(g, g.startLevel, t) && WF(g, g.startLevel, u) && PieceEntered(g, t, u, v, k, hit)
    requires v + BlockSize(g, k) <= w < WORD && !InBlockMet(g, g.startLevel, t, v, k, x)
    ensures InBlockMet(g, g.startLevel, u, w, j, x) <==> InBlockMet(g, g.startLevel, t, w, j, x)
  {
    hide BlockSize, WF, Lookup, SamePath, Known;
    assert LookupRoot(g, u, w) == if InBlockMet(g, g.startLevel, t, v, k, w) then None else LookupRoot(g, t, w);
    if LookupRoot(g, t, v).Some? {
      SameLeaf(g, g.startLevel, t, v, w);
      var m := LookupRoot(g, t, v).value.level;
      if SamePath(g, g.startLevel, m, v, w) {
        SamePathTrans(g, g.startLevel, m, v, w, x);
      }
    }
  }

  /** Every address after the whole call: the region translates as asked, and of all other
      addresses exactly those in a larger block that a piece met are lost. */
  lemma {:induction false} CallLookups(g: Geometry, t: Table, v: nat, p: nat, sz: nat, pool: Pool, x: nat)
    requires Known(g) && WF(g, g.startLevel, t) && pool.Valid() && MapArgs(g, v, p, sz) && OnPage(g, v)
    requires MapAll(g, t, v, p, sz, pool).rc == Mapped && x < WORD
    ensures LookupRoot(g, MapAll(g, t, v, p, sz, pool).t, x) ==
      if v <= x < v + sz then Some(RegionHit(g, v, p, sz, x))
      else if Swallowed(g, t, v, sz, x) then None
      else LookupRoot(g, t, x)
    decreases sz
  {
    hide BlockSize, PageSize, Aligned, OnPage, OnBlock, ChunkLevel, WF, WholePages, Swallowed, LookupRoot, InBlockMet,
      MapPiece, MapAll, Known, Pool.Valid, RegionHit, PieceEntered, PaField;
    var k, b := FirstPiece(g, v, sz);
    MapAllStep(g, t, v, p, sz, pool, k, b);
    PieceLookups(g, t, v, p, k, pool);
    SwallowedStep(g, t, v, sz, k, b, x);
    var hit, r := Hit(k, PaField(p)), MapPiece(g, t, v, p, k, pool);
    EnteredAt(g, t, r.t, v, k, hit, x);
    if v <= x < v + sz {
      RegionHitStep(g, v, p, sz, k, b, x);
    }
    if b < sz {
      CallLookups(g, r.t, v + b, p + b, sz - b, r.pool, x);
      if v <= x < v + b {
        NotSwallowed(g, r.t, v, k, hit, v + b, sz - b, x);
      } else if !InBlockMet(g, g.startLevel, t, v, k, x) {
        SwallowsSame(g, t, r.t, v, k, hit, v + b, sz - b, x);
      }
    }
  }

  lemma EnteredAt(g: Geometry, t: Table, u: Table, v: nat, k: nat, hit: Hit, x: nat)
    requires WF(g, g.startLevel, t) && WF(g, g.startLevel, u) && PieceEntered(g, t, u, v, k, hit) && x < WORD
    ensures LookupRoot(g, u, x) ==
      if v <= x < v + BlockSize(g, k) then Some(hit)
      else if InBlockMet(g, g.startLevel, t, v, k, x) then None
      else LookupRoot(g, t, x)
  {
    hide BlockSize, WF, LookupRoot, InBlockMet;
  }

  /** A shallower level was passed over because its block does not start or does not fit here. */
  lemma {:induction false} PassedOver(g: Geometry, l: nat, v: nat, sz: nat, j: nat)
    requires AtLevel(g, l) && l <= j < ChunkLevel(g, l, v, sz)
    ensures !(Aligned(v, BlockSize(g, j)) && sz >= BlockSize(g, j))
    decreases MAX_LEVEL - l
  {
    hide BlockSize, Aligned;
    if l < j {
      PassedOver(g, l + 1, v, sz, j);
    }
  }

  /** An address of the block of `v` outside a region that starts at `v` and either does not
      start with the block or is shorter. */
  lemma OutsideInBlock(v: nat, sz: nat, b: nat, top: nat) returns (x: nat)
    requires 0 < b && 0 < sz && v + sz <= top && Modulo(top, b) == 0 && (Modulo(v, b) == 0 ==> sz < b)
    ensures x < top && !(v <= x < v + sz) && Quotient(x, b) == Quotient(v, b)
  {
    var base := v / b * b;
    DivBounds(v, b);
    DivUnique(base, b, v / b);
    MultiplesApart(base, top, b);
    x := if base == v then v + sz else base;
    DivUnique(x, b, v / b);
  }

  lemma BlockDividesSpace(g: Geometry, l: nat)
    requires Known(g) && AtLevel(g, l)
    ensures Modulo(WORD, BlockSize(g, l)) == 0
    ensures forall v: nat | v < WORD :: Modulo(v, BlockSize(g, l)) == 0 <==> Aligned(v, BlockSize(g, l))
  {
    hide BlockSize, Aligned;
    LevelSizes(g, l);
    forall v: nat | v < WORD
      ensures Modulo(v, BlockSize(g, l)) == 0 <==> Aligned(v, BlockSize(g, l))
    {
      AlignedIsMultiple(v, BlockSize(g, l));
    }
  }

  lemma SameBlockSamePath(g: Geometry, j: nat, x: nat, y: nat)
    requires Known(g) && AtLevel(g, j) && x < WORD && y < WORD
    requires Quotient(x, BlockSize(g, j)) == Quotient(y, BlockSize(g, j))
    ensures SamePath(g, g.startLevel, j, x, y)
  {
    hide BlockSize, SamePath;
    SameTableSameBlock(g, g.startLevel, j, x, y);
  }

  /** Some piece of the region meets a larger block of the tree. */
  ghost predicate MeetsBlock(g: Geometry, t: Table, v: nat, sz: nat)
    requires Known(g) && WF(g, g.startLevel, t) && WholePages(g, v, sz)
    decreases sz
  {
    hide BlockSize, PageSize, Aligned;
    ChunkFits(g, v, sz);
    var k := ChunkLevel(g, g.startLevel, v, sz);
    var b := BlockSize(g, k);
    LeafAbove(g, g.startLevel, t, v, k) || (b < sz && MeetsBlock(g, t, v + b, sz - b))
  }

  lemma MeetsBlockStep(g: Geometry, t: Table, v: nat, sz: nat, k: nat, b: nat)
    requires Known(g) && WF(g, g.startLevel, t) && WholePages(g, v, sz)
    requires k == ChunkLevel(g, g.startLevel, v, sz) && b == BlockSize(g, k)
    requires b < sz ==> WholePages(g, v + b, sz - b)
    ensures MeetsBlock(g, t, v, sz)
            <==> LeafAbove(g, g.startLevel, t, v, k) || (b < sz && MeetsBlock(g, t, v + b, sz - b))
  {
    hide BlockSize, PageSize, Aligned, ChunkLevel, WF, LeafAbove;
  }

  /** The block the first piece meets has an address outside the region: the split would have
      taken it whole otherwise. */
  lemma FirstSticksOut(g: Geometry, t: Table, v: nat, sz: nat, k: nat) returns (x: nat)
    requires Known(g) && WF(g, g.startLevel, t) && WholePages(g, v, sz) && AtLevel(g, g.startLevel)
    requires k == ChunkLevel(g, g.startLevel, v, sz) && LeafAbove(g, g.startLevel, t, v, k)
    ensures x < WORD && !(v <= x < v + sz) && InBlockMet(g, g.startLevel, t, v, k, x)
  {
    hide BlockSize, PageSize, Aligned, ChunkLevel, WF, Lookup, SamePath, Known, Modulo, Quotient;
    LookupLevel(g, g.startLevel, t, v);
    var j := Lookup(g, g.startLevel, t, v).value.level;
    BelowWord(g, v, sz);
    PassedOver(g, g.startLevel, v, sz, j);
    BlockDividesSpace(g, j);
    x := OutsideInBlock(v, sz, BlockSize(g, j), WORD);
    SameBlockSamePath(g, j, v, x);
  }

  /** Any block met by a smaller piece sticks out of the region. */
  lemma {:induction false} SticksOut(g: Geometry, t: Table, v: nat, sz: nat) returns (x: nat)
    requires Known(g) && WF(g, g.startLevel, t) && WholePages(g, v, sz) && OnPage(g, v) && MeetsBlock(g, t, v, sz)
    ensures x < WORD && !(v <= x < v + sz) && Swallowed(g, t, v, sz, x)
    decreases sz
  {
    hide BlockSize, PageSize, Aligned, OnPage, OnBlock, ChunkLevel, WF, WholePages, Swallowed, LookupRoot, InBlockMet,
      Known, MeetsBlock, LeafAbove;
    var k, b := FirstPiece(g, v, sz);
    MeetsBlockStep(g, t, v, sz, k, b);
    if !LeafAbove(g, g.startLevel, t, v, k) {
      x := SticksOut(g, t, v + b, sz - b);
      if v <= x < v + b {
        var y := SwallowedBy(g, t, v + b, sz - b, x);
        CoversPiece(g, t, v, k, y, x);
      }
    }
    if LeafAbove(g, g.startLevel, t, v, k) {
      x := FirstSticksOut(g, t, v, sz, k);
    }
    SwallowedStep(g, t, v, sz, k, b, x);
  }

  /** A block with addresses both in a piece and behind it is larger than the piece. */
  lemma CoversPiece(g: Geometry, t: Table, v: nat, k: nat, y: nat, x: nat)
    requires Known(g) && WF(g, g.startLevel, t) && AtLevel(g, k) && OnBlock(g, k, v)
    requires v <= x < v + BlockSize(g, k) <= y < WORD && InBlockMet(g, g.startLevel, t, y, MAX_LEVEL, x)
    ensures LeafAbove(g, g.startLevel, t, v, k)
  {
    hide BlockSize, WF, Lookup, SamePath, Known;
    SameLeaf(g, g.startLevel, t, y, x);
    SameLeaf(g, g.startLevel, t, y, v);
    var j := Lookup(g, g.startLevel, t, y).value.level;
    PathIsBlock(g, k, v, x);
    PathIsBlock(g, k, v, y);
    if k <= j {
      SamePathPrefix(g, g.startLevel, k, j, y, x);
      SamePathTrans(g, g.startLevel, k, y, x, v);
      SamePathTrans(g, g.startLevel, k, v, x, y);
      SamePathTrans(g, g.startLevel, k, x, v, y);
    } else {
      SamePathPrefix(g, g.startLevel, j, k, v, x);
      SamePathTrans(g, g.startLevel, j, v, x, y);
      SamePathTrans(g, g.startLevel, j, y, x, v);
    }
  }

  /** No translation outside the region changed. */
  ghost predicate OthersKept(g: Geometry, t: Table, u: Table, v: nat, sz: nat)
    requires WF(g, g.startLevel, t) && WF(g, g.startLevel, u)
  {
    forall x: nat | x < WORD && !(v <= x < v + sz) :: LookupRoot(g, u, x) == LookupRoot(g, t, x)
  }

  /** A call keeps all other translations exactly when none of its pieces meets a larger
      block; otherwise what sticks out of that block is silently lost. */
  lemma KeepsOthersExact(g: Geometry, t: Table, v: nat, p: nat, sz: nat, pool: Pool)
    requires Known(g) && WF(g, g.startLevel, t) && pool.Valid() && MapArgs(g, v, p, sz) && OnPage(g, v)
    requires MapAll(g, t, v, p, sz, pool).rc == Mapped
    ensures OthersKept(g, t, MapAll(g, t, v, p, sz, pool).t, v, sz) <==> !MeetsBlock(g, t, v, sz)
  {
    hide BlockSize, PageSize, Aligned, OnPage, WF, WholePages, Swallowed, MapAll, Known, Pool.Valid, RegionHit,
      MeetsBlock, Lookup;
    var u := MapAll(g, t, v, p, sz, pool).t;
    if MeetsBlock(g, t, v, sz) {
      var x := SticksOut(g, t, v, sz);
      CallLookups(g, t, v, p, sz, pool, x);
      SwallowedWasMapped(g, t, v, sz, x);
      assert LookupRoot(g, u, x) != LookupRoot(g, t, x);
    } else {
      forall x: nat | x < WORD && !(v <= x < v + sz)
        ensures LookupRoot(g, u, x) == LookupRoot(g, t, x)
      {
        CallLookups(g, t, v, p, sz, pool, x);
        NoneSwallowed(g, t, v, sz, x);
      }
    }
  }

  lemma SwallowedWasMapped(g: Geometry, t: Table, v: nat, sz: nat, x: nat)
    requires Known(g) && WF(g, g.startLevel, t) && WholePages(g, v, sz) && OnPage(g, v) && Swallowed(g, t, v, sz, x)
    ensures LookupRoot(g, t, x).Some?
  {
    hide BlockSize, WF, Lookup, SamePath, Known, Swallowed, WholePages, OnPage;
    var y := SwallowedBy(g, t, v, sz, x);
    SameLeaf(g, g.startLevel, t, y, x);
  }

  lemma {:induction false} NoneSwallowed(g: Geometry, t: Table, v: nat, sz: nat, x: nat)
    requires Known(g) && WF(g, g.startLevel, t) && WholePages(g, v, sz) && OnPage(g, v) && !MeetsBlock(g, t, v, sz)
    ensures !Swallowed(g, t, v, sz, x)
    decreases sz
  {
    hide BlockSize, PageSize, Aligned, OnPage, OnBlock, ChunkLevel, WF, WholePages, Swallowed, MeetsBlock, LeafAbove,
      Known;
    var k, b := FirstPiece(g, v, sz);
    MeetsBlockStep(g, t, v, sz, k, b);
    SwallowedStep(g, t, v, sz, k, b, x);
    if b < sz {
      NoneSwallowed(g, t, v + b, sz - b, x);
    }
  }
}
