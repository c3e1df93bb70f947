/** How many tables a map needs, and with that the result code of every call: when tables run
    out, when an overlap is reported, and when the map succeeds. */
module MmuTables {
  import opened Words
  import opened Arith
  import opened Bits
  import opened MmuGeometry
  import opened MmuTree
  import opened MmuMap
  import opened MmuRefine
  import opened MmuOverlap
  import opened Balloc

  /** Whether `n` tables can be allocated in a row, and what that leaves of the free blocks. */
  ghost predicate CanTake(g: Geometry, fb: seq<Block>, n: nat)
    requires Known(g)
  {
    LevelSizes(g, g.startLevel);
    CanAlloc(fb, PageSize(g), PageSize(g), n)
  }

  ghost function TakeTimes(g: Geometry, fb: seq<Block>, n: nat): seq<Block>
    requires Known(g)
  {
    LevelSizes(g, g.startLevel);
    AllocTimes(fb, PageSize(g), PageSize(g), n)
  }

  lemma TakeInTurn(g: Geometry, fb: seq<Block>, m: nat, n: nat)
    requires Known(g)
    ensures CanTake(g, fb, m + n) <==> CanTake(g, fb, m) && CanTake(g, TakeTimes(g, fb, m), n)
    ensures TakeTimes(g, fb, m + n) == TakeTimes(g, TakeTimes(g, fb, m), n)
    ensures CanTake(g, fb, 0) && TakeTimes(g, fb, 0) == fb
  {
    hide PageSize, BlockSize, TableBytes, Entries, MmuGeometry.Span;
    LevelSizes(g, g.startLevel);
    AllocInTurn(fb, PageSize(g), PageSize(g), m, n);
  }

  /** Tables missing on the path of `v` down to level `k`. */
  ghost function Missing(g: Geometry, l: nat, t: Table, v: nat, k: nat): nat
    requires WF(g, l, t) && l <= k
    decreases k - l
  {
    if l == k then 0
    else if t.ents[Index(g, l, v)].Sub? then Missing(g, l + 1, t.ents[Index(g, l, v)].t, v, k)
    else k - l
  }

  /** One new table is one allocation. */
  lemma NewTableTakes(g: Geometry, l: nat, pool: Pool)
    requires Known(g) && AtLevel(g, l) && l > g.startLevel && pool.Valid()
    ensures var (s, pool') := NewTable(g, l, pool);
            && (s.Some? <==> CanTake(g, pool.fb, 1))
            && (s.Some? ==> pool'.fb == TakeTimes(g, pool.fb, 1) && |pool'.live| == |pool.live| + 1)
  {
    hide PageSize, BlockSize, TableBytes, Entries, MmuGeometry.Span, Alloc, Tiling, PlaceOk;
    LevelSizes(g, l);
    var p := PageSize(g);
    assert AllocTimes(pool.fb, p, p, 1) == AllocTimes(Alloc(pool.fb, p, p).1, p, p, 0);
    assert CanAlloc(pool.fb, p, p, 1) == (Alloc(pool.fb, p, p).0 != 0);
  }

  /** Linking succeeds exactly when the missing tables can be allocated. */
  lemma {:induction false} GrowTakes(g: Geometry, l: nat, t: Table, v: nat, k: nat, pool: Pool)
    requires Known(g) && WF(g, l, t) && l <= k <= MAX_LEVEL && pool.Valid()
    ensures var r, n := Grow(g, l, t, v, k, pool), Missing(g, l, t, v, k);
            && (r.ok <==> CanTake(g, pool.fb, n))
            && (r.ok ==> r.pool.fb == TakeTimes(g, pool.fb, n) && |r.pool.live| == |pool.live| + n)
    decreases k - l
  {
    hide Tiling, PlaceOk, Index, Grow, NewTable, CanTake, TakeTimes;
    var i, n := Index(g, l, v), Missing(g, l, t, v, k);
    if l == k {
      GrowNothing(g, l, t, v, pool);
      TakeInTurn(g, pool.fb, 0, 0);
    } else if t.ents[i].Sub? {
      GrowThrough(g, l, t, v, k, pool);
      GrowTakes(g, l + 1, t.ents[i].t, v, k, pool);
    } else {
      GrowNew(g, l, t, v, k, pool);
      NewTableTakes(g, l + 1, pool);
      TakeInTurn(g, pool.fb, 1, n - 1);
      var (s, pool') := NewTable(g, l + 1, pool);
      if s.Some? {
        FreshMissing(g, l + 1, s.value, v, k);
        GrowTakes(g, l + 1, s.value, v, k, pool');
      }
    }
  }

  lemma FreshMissing(g: Geometry, l: nat, t: Table, v: nat, k: nat)
    requires WF(g, l, t) && t == EmptyTable(g, l, t.addr) && l <= k
    ensures Missing(g, l, t, v, k) == k - l
  {
  }

  /** A table's place: its level and which range of that level it serves. */
  datatype Place = Place(level: nat, range: nat)

  function PlaceOf(g: Geometry, j: nat, x: nat): Place { Place(j, Quotient(x, MmuGeometry.Span(g, j))) }

  /** The places of `x` at the levels below `l` down to `k`. */
  function PlacesBelow(g: Geometry, l: nat, x: nat, k: nat): set<Place>
  {
    set j: nat | l < j <= k :: PlaceOf(g, j, x)
  }

  lemma {:induction false} CountPlaces(g: Geometry, l: nat, x: nat, k: nat)
    requires l <= k
    ensures |PlacesBelow(g, l, x, k)| == k - l
    decreases k - l
  {
    hide PlaceOf;
    if l < k {
      CountPlaces(g, l + 1, x, k);
      assert PlacesBelow(g, l, x, k) == PlacesBelow(g, l + 1, x, k) + {PlaceOf(g, l + 1, x)};
      assert forall j: nat :: PlaceOf(g, j, x).level == j by { PlaceLevels(g, x); }
    } else {
      assert PlacesBelow(g, l, x, k) == {};
    }
  }

  lemma PlaceLevels(g: Geometry, x: nat)
    ensures forall j: nat :: PlaceOf(g, j, x).level == j
  {
  }

  /** The places where a piece finds no table. */
  ghost function PiecePlaces(g: Geometry, l: nat, t: Table, v: nat, k: nat): set<Place>
    requires WF(g, l, t)
  {
    set j: nat | l < j <= k && !HasPath(g, l, t, v, j) :: PlaceOf(g, j, v)
  }

  lemma {:induction false} CountMissing(g: Geometry, l: nat, t: Table, v: nat, k: nat)
    requires WF(g, l, t) && l <= k <= MAX_LEVEL
    ensures |PiecePlaces(g, l, t, v, k)| == Missing(g, l, t, v, k)
    decreases k - l
  {
    hide PlaceOf, Index;
    var e := t.ents[Index(g, l, v)];
    if l == k {
      assert PiecePlaces(g, l, t, v, k) == {};
    } else if e.Sub? {
      CountMissing(g, l + 1, e.t, v, k);
      assert HasPath(g, l + 1, e.t, v, l + 1);
      forall j: nat | l < j <= k
        ensures HasPath(g, l, t, v, j) <==> HasPath(g, l + 1, e.t, v, j)
      {
      }
      assert PiecePlaces(g, l, t, v, k) == PiecePlaces(g, l + 1, e.t, v, k);
    } else {
      CountPlaces(g, l, v, k);
      assert PiecePlaces(g, l, t, v, k) == PlacesBelow(g, l, v, k);
    }
  }

  /** The tables there after linking: those of before and those on the path. */
  lemma {:induction false} GrowPath(g: Geometry, l: nat, t: Table, v: nat, k: nat, pool: Pool, x: nat, j: nat)
    requires Known(g) && WF(g, l, t) && l <= k <= MAX_LEVEL && pool.Valid() && Grow(g, l, t, v, k, pool).ok
    ensures HasPath(g, l, Grow(g, l, t, v, k, pool).t, x, j)
            <==> HasPath(g, l, t, x, j) || (l <= j <= k && (j == l || SamePath(g, l, j - 1, v, x)))
    decreases k - l
  {
    hide Tiling, PlaceOk, Index, Grow, NewTable;
    var i := Index(g, l, v);
    if l == k {
      GrowNothing(g, l, t, v, pool);
    } else if t.ents[i].Sub? {
      GrowThrough(g, l, t, v, k, pool);
      GrowPath(g, l + 1, t.ents[i].t, v, k, pool, x, j);
    } else {
      GrowNew(g, l, t, v, k, pool);
      var (s, pool') := NewTable(g, l + 1, pool);
      GrowPath(g, l + 1, s.value, v, k, pool', x, j);
    }
  }

  lemma {:induction false} FillPath(g: Geometry, l: nat, t: Table, v: nat, k: nat, e: Entry, x: nat, j: nat)
    requires WF(g, l, t) && HasPath(g, l, t, v, k) && EntryWF(g, k, e) && !e.Sub? && !EntryAt(g, l, t, v, k).Sub?
    ensures HasPath(g, l, SetEntry(g, l, t, v, k, e), x, j) <==> HasPath(g, l, t, x, j)
    decreases t
  {
    if l < k {
      FillPath(g, l + 1, t.ents[Index(g, l, v)].t, v, k, e, x, j);
    }
  }

  lemma PiecePath(g: Geometry, t: Table, v: nat, p: nat, k: nat, pool: Pool, x: nat, j: nat)
    requires Known(g) && WF(g, g.startLevel, t) && pool.Valid() && AtLevel(g, k) && p < MAX_PA
    requires MapPiece(g, t, v, p, k, pool).rc == Mapped && g.startLevel < j <= MAX_LEVEL
    ensures HasPath(g, g.startLevel, MapPiece(g, t, v, p, k, pool).t, x, j)
            <==> HasPath(g, g.startLevel, t, x, j) || (j <= k && SamePath(g, g.startLevel, j - 1, v, x))
  {
    hide BlockSize, Index, PlaceOk, Pool.Valid, Grow, SamePath, HasPath, WF, PaField, Known, SetEntry, MapPiece;
    Entered(g, t, v, p, k, pool);
    GrowPath(g, g.startLevel, t, v, k, pool, x, j);
    FillPath(g, g.startLevel, Grow(g, g.startLevel, t, v, k, pool).t, v, k, Leaf(PaField(p)), x, j);
  }

  lemma SamePlace(g: Geometry, j: nat, x: nat, y: nat)
    requires Known(g) && 0 < j && AtLevel(g, j - 1) && x < WORD && y < WORD
    ensures PlaceOf(g, j, x) == PlaceOf(g, j, y) <==> SamePath(g, g.startLevel, j - 1, x, y)
  {
    hide BlockSize, SamePath;
    SameTableSameBlock(g, g.startLevel, j - 1, x, y);
  }

  lemma {:induction false} SharedPath(g: Geometry, l: nat, t: Table, x: nat, y: nat, j: nat)
    requires WF(g, l, t) && l < j <= MAX_LEVEL && SamePath(g, l, j - 1, x, y)
    ensures HasPath(g, l, t, x, j) <==> HasPath(g, l, t, y, j)
    decreases t
  {
    var e := t.ents[Index(g, l, x)];
    if l + 1 < j && e.Sub? {
      SharedPath(g, l + 1, e.t, x, y, j);
    }
  }

  /** A later piece misses the tables it missed before, but for those just linked. */
  lemma PlacesAfter(g: Geometry, t: Table, v: nat, p: nat, k: nat, pool: Pool, w: nat, k': nat)
    requires Known(g) && WF(g, g.startLevel, t) && pool.Valid() && AtLevel(g, k) && AtLevel(g, k') && p < MAX_PA
    requires MapPiece(g, t, v, p, k, pool).rc == Mapped && v < WORD && w < WORD
    ensures PiecePlaces(g, g.startLevel, MapPiece(g, t, v, p, k, pool).t, w, k')
            == PiecePlaces(g, g.startLevel, t, w, k') - PiecePlaces(g, g.startLevel, t, v, k)
  {
    hide BlockSize, Pool.Valid, SamePath, HasPath, WF, Known, MapPiece, PlaceOf;
    var u := MapPiece(g, t, v, p, k, pool).t;
    PlaceLevels(g, v);
    PlaceLevels(g, w);
    forall j: nat | g.startLevel < j <= k'
      ensures HasPath(g, g.startLevel, u, w, j) <==>
                HasPath(g, g.startLevel, t, w, j) || PlaceOf(g, j, w) in PiecePlaces(g, g.startLevel, t, v, k)
    {
      PiecePath(g, t, v, p, k, pool, w, j);
      SamePlace(g, j, v, w);
      if SamePath(g, g.startLevel, j - 1, v, w) {
        SharedPath(g, g.startLevel, t, v, w, j);
      }
    }
  }

  /** Some address of the level-`k` block at `v` is mapped by a descriptor of level `k` or
      deeper. A larger block that covers the piece does not count. */
  ghost predicate MappedFrom(g: Geometry, t: Table, v: nat, k: nat)
    requires WF(g, g.startLevel, t)
  {
    exists x: nat :: v <= x < v + BlockSize(g, k) && LookupRoot(g, t, x).Some? && LookupRoot(g, t, x).value.level >= k
  }

  /** In a pruned tree a piece has a valid descriptor exactly when something in it is mapped at
      its level or deeper. */
  lemma PieceThere(g: Geometry, t: Table, v: nat, k: nat)
    requires Known(g) && WF(g, g.startLevel, t) && Pruned(t) && AtLevel(g, k)
    requires OnBlock(g, k, v) && v + BlockSize(g, k) <= WORD
    ensures MappedFrom(g, t, v, k) <==>
              HasPath(g, g.startLevel, t, v, k) && !EntryAt(g, g.startLevel, t, v, k).Invalid?
  {
    hide BlockSize, Index, PlaceOk, Pruned, HasPath, SamePath;
    if HasPath(g, g.startLevel, t, v, k) {
      FreeChunk(g, t, v, k);
    } else {
      forall x: nat | v <= x < v + BlockSize(g, k)
        ensures !(LookupRoot(g, t, x).Some? && LookupRoot(g, t, x).value.level >= k)
      {
        PathIsBlock(g, k, v, x);
        NoPath(g, g.startLevel, t, v, k, x);
      }
    }
  }

  /** Entering a piece: out of tables exactly when those missing on its path cannot be
      allocated; otherwise an overlap exactly when something of its level or deeper is mapped. */
  lemma PieceOutcome(g: Geometry, t: Table, v: nat, p: nat, k: nat, pool: Pool)
    requires Sound(g, t, pool) && Pruned(t) && AtLevel(g, k) && p < MAX_PA
    requires OnBlock(g, k, v) && v + BlockSize(g, k) <= WORD
    ensures var r, n := MapPiece(g, t, v, p, k, pool), |PiecePlaces(g, g.startLevel, t, v, k)|;
            && r.rc == (if !CanTake(g, pool.fb, n) then NoTable else if MappedFrom(g, t, v, k) then Overlap else Mapped)
            && (r.rc == Mapped ==> r.pool.fb == TakeTimes(g, pool.fb, n) && |r.pool.live| == |pool.live| + n)
    ensures MappedFrom(g, t, v, k) ==> PiecePlaces(g, g.startLevel, t, v, k) == {}
  {
    hide BlockSize, Index, PlaceOk, Tiling, Grow, NoSharing, Blocks, Pruned, HasPath, SamePath, CanTake, TakeTimes,
      PlaceOf;
    CountMissing(g, g.startLevel, t, v, k);
    GrowTakes(g, g.startLevel, t, v, k, pool);
    if Grow(g, g.startLevel, t, v, k, pool).ok {
      GrowEntry(g, g.startLevel, t, v, k, pool);
    }
    PieceThere(g, t, v, k);
    if HasPath(g, g.startLevel, t, v, k) {
      PathAbove(g, t, v, k);
    }
  }

  lemma PathAbove(g: Geometry, t: Table, v: nat, k: nat)
    requires WF(g, g.startLevel, t) && HasPath(g, g.startLevel, t, v, k)
    ensures PiecePlaces(g, g.startLevel, t, v, k) == {}
  {
    hide HasPath, PlaceOf;
    forall j: nat | g.startLevel < j <= k
      ensures HasPath(g, g.startLevel, t, v, j)
    {
      ShorterPath(g, g.startLevel, t, v, k, j);
    }
  }

  /** Nothing an earlier piece did makes a later one collide or not. */
  lemma CollidesSame(g: Geometry, t: Table, u: Table, v: nat, k: nat, hit: Hit, w: nat, j: nat)
    requires Known(g) && WF(g, g.startLevel, t) && WF(g, g.startLevel, u) && PieceEntered(g, t, u, v, k, hit)
    requires AtLevel(g, k) && AtLevel(g, j) && OnBlock(g, j, w) && w + BlockSize(g, j) <= WORD
    requires v + BlockSize(g, k) <= w
    ensures MappedFrom(g, u, w, j) <==> MappedFrom(g, t, w, j)
  {
    hide BlockSize, WF, Lookup, SamePath, Known, InBlockMet;
    forall x: nat | w <= x < w + BlockSize(g, j)
      ensures LookupRoot(g, u, x).Some? && LookupRoot(g, u, x).value.level >= j <==>
              LookupRoot(g, t, x).Some? && LookupRoot(g, t, x).value.level >= j
    {
      EnteredAt(g, t, u, v, k, hit, x);
      if InBlockMet(g, g.startLevel, t, v, k, x) {
        LostAbove(g, t, v, k, w, j, x);
      }
    }
  }

  lemma LostAbove(g: Geometry, t: Table, v: nat, k: nat, w: nat, j: nat, x: nat)
    requires Known(g) && WF(g, g.startLevel, t) && AtLevel(g, j) && OnBlock(g, j, w) && v < w
    requires w <= x < w + BlockSize(g, j) <= WORD && InBlockMet(g, g.startLevel, t, v, k, x)
    ensures LookupRoot(g, t, x).Some? && LookupRoot(g, t, x).value.level < j
  {
    hide BlockSize, WF, Lookup, SamePath, Known;
    SameLeaf(g, g.startLevel, t, v, x);
    var m := Lookup(g, g.startLevel, t, v).value.level;
    PathIsBlock(g, j, w, x);
    PathIsBlock(g, j, w, v);
    if j <= m {
      SamePathPrefix(g, g.startLevel, j, m, v, x);
      SamePathTrans(g, g.startLevel, j, w, x, v);
      SamePathTrans(g, g.startLevel, j, v, x, w);
      SamePathTrans(g, g.startLevel, j, x, w, v);
    }
  }

  /** Some piece of the region collides. */
  ghost predicate Collides(g: Geometry, t: Table, v: nat, sz: nat)
    requires Known(g) && WF(g, g.startLevel, t) && WholePages(g, v, sz)
    decreases sz
  {
    hide BlockSize, PageSize, Aligned;
    ChunkFits(g, v, sz);
    var k := ChunkLevel(g, g.startLevel, v, sz);
    var b := BlockSize(g, k);
    MappedFrom(g, t, v, k) || (b < sz && Collides(g, t, v + b, sz - b))
  }

  /** The places of all tables the region needs and does not find, up to the first piece that
      collides. */
  ghost function Needs(g: Geometry, t: Table, v: nat, sz: nat): set<Place>
    requires Known(g) && WF(g, g.startLevel, t) && WholePages(g, v, sz)
    decreases sz
  {
    hide BlockSize, PageSize, Aligned, PlaceOf;
    ChunkFits(g, v, sz);
    var k := ChunkLevel(g, g.startLevel, v, sz);
    var b := BlockSize(g, k);
    if MappedFrom(g, t, v, k) then {}
    else PiecePlaces(g, g.startLevel, t, v, k) + if b < sz then Needs(g, t, v + b, sz - b) else {}
  }

  lemma RegionStep(g: Geometry, t: Table, v: nat, sz: nat, k: nat, b: nat)
    requires Known(g) && WF(g, g.startLevel, t) && WholePages(g, v, sz)
    requires k == ChunkLevel(g, g.startLevel, v, sz) && b == BlockSize(g, k)
    requires b < sz ==> WholePages(g, v + b, sz - b)
    ensures Collides(g, t, v, sz) <==> MappedFrom(g, t, v, k) || (b < sz && Collides(g, t, v + b, sz - b))
    ensures Needs(g, t, v, sz) ==
              if MappedFrom(g, t, v, k) then {}
              else PiecePlaces(g, g.startLevel, t, v, k) + if b < sz then Needs(g, t, v + b, sz - b) else {}
  {
    hide BlockSize, PageSize, Aligned, ChunkLevel, WF, PiecePlaces, MappedFrom;
  }

  /** What the rest of a region needs once a piece before it was entered. */
  lemma {:induction false} RestAfter(g: Geometry, t: Table, v: nat, p: nat, k: nat, pool: Pool, w: nat, sz: nat)
    requires Known(g) && WF(g, g.startLevel, t) && pool.Valid() && AtLevel(g, k) && p < MAX_PA && OnBlock(g, k, v)
    requires MapPiece(g, t, v, p, k, pool).rc == Mapped && WholePages(g, w, sz) && OnPage(g, w)
    requires v + BlockSize(g, k) <= w
    ensures var u := MapPiece(g, t, v, p, k, pool).t;
            && (Collides(g, u, w, sz) <==> Collides(g, t, w, sz))
            && Needs(g, u, w, sz) == Needs(g, t, w, sz) - PiecePlaces(g, g.startLevel, t, v, k)
    decreases sz
  {
    hide BlockSize, PageSize, Aligned, OnPage, OnBlock, ChunkLevel, WF, Known, MapPiece, PiecePlaces, MappedFrom,
      Needs, Collides, PieceEntered, PaField, WholePages, Pool.Valid;
    BelowWord(g, w, sz);
    var j, b := FirstPiece(g, w, sz);
    PieceLookups(g, t, v, p, k, pool);
    var u := MapPiece(g, t, v, p, k, pool).t;
    RegionStep(g, t, w, sz, j, b);
    RegionStep(g, u, w, sz, j, b);
    CollidesSame(g, t, u, v, k, Hit(k, PaField(p)), w, j);
    PlacesAfter(g, t, v, p, k, pool, w, j);
    if b < sz {
      RestAfter(g, t, v, p, k, pool, w + b, sz - b);
    }
  }

  /** The tables of a whole call can be allocated. */
  ghost predicate TablesSuffice(g: Geometry, t: Table, v: nat, sz: nat, pool: Pool)
    requires Known(g) && WF(g, g.startLevel, t) && WholePages(g, v, sz)
  {
    CanTake(g, pool.fb, |Needs(g, t, v, sz)|)
  }

  lemma CountUnion<T>(a: set<T>, b: set<T>)
    ensures |a + b| == |a| + |b - a|
  {
    assert a + b == a + (b - a);
  }

  /** The result code of every call over a tree as maps and unmaps leave it: out of tables
      exactly when those missing, up to the first collision, cannot be allocated; otherwise an
      overlap exactly when some piece collides; otherwise the region is mapped, with one new
      block for every missing table. */
  lemma {:induction false} OutcomeExact(g: Geometry, t: Table, v: nat, p: nat, sz: nat, pool: Pool)
    requires Sound(g, t, pool) && Pruned(t) && MapArgs(g, v, p, sz) && OnPage(g, v)
    ensures var r := MapAll(g, t, v, p, sz, pool);
            && r.rc == (if !TablesSuffice(g, t, v, sz, pool) then NoTable
                        else if Collides(g, t, v, sz) then Overlap else Mapped)
            && (r.rc == Mapped ==> r.pool.fb == TakeTimes(g, pool.fb, |Needs(g, t, v, sz)|)
                                   && |r.pool.live| == |pool.live| + |Needs(g, t, v, sz)|)
    decreases sz
  {
    hide BlockSize, PageSize, Aligned, OnPage, OnBlock, ChunkLevel, WF, Known, MapPiece, MapAll, PiecePlaces,
      MappedFrom, Needs, Collides, WholePages, Tiling, NoSharing, Blocks, Pruned, CanTake, TakeTimes, Sound;
    SoundIs(g, t, pool);
    BelowWord(g, v, sz);
    var k, b := FirstPiece(g, v, sz);
    MapAllStep(g, t, v, p, sz, pool, k, b);
    RegionStep(g, t, v, sz, k, b);
    PieceOutcome(g, t, v, p, k, pool);
    var r, here := MapPiece(g, t, v, p, k, pool), PiecePlaces(g, g.startLevel, t, v, k);
    var rest := if b < sz then Needs(g, t, v + b, sz - b) else {};
    CountUnion(here, rest);
    TakeInTurn(g, pool.fb, |here|, |rest - here|);
    TakeInTurn(g, pool.fb, 0, 0);
    if r.rc == Mapped {
      PieceKeepsSound(g, t, v, p, k, pool);
      PieceKeepsPruned(g, t, v, p, k, pool);
      if b < sz {
        RestAfter(g, t, v, p, k, pool, v + b, sz - b);
        OutcomeExact(g, r.t, v + b, p + b, sz - b, r.pool);
      } else {
        TakeInTurn(g, r.pool.fb, 0, 0);
      }
    }
  }

  lemma SoundIs(g: Geometry, t: Table, pool: Pool)
    requires Sound(g, t, pool)
    ensures Known(g) && AtLevel(g, g.startLevel) && WF(g, g.startLevel, t) && pool.Valid()
  {
  }

  lemma PieceKeepsPruned(g: Geometry, t: Table, v: nat, p: nat, k: nat, pool: Pool)
    requires Known(g) && WF(g, g.startLevel, t) && pool.Valid() && AtLevel(g, k) && p < MAX_PA && Pruned(t)
    requires MapPiece(g, t, v, p, k, pool).rc == Mapped
    ensures Pruned(MapPiece(g, t, v, p, k, pool).t)
  {
    hide BlockSize, Index, PlaceOk, Pool.Valid, Grow, HasPath, WF, PaField, Known, SetEntry, MapPiece, Pruned;
    Entered(g, t, v, p, k, pool);
    FillPruned(g, g.startLevel, t, v, k, pool, PaField(p));
  }

  lemma {:induction false} UnmappedIsFree(g: Geometry, t: Table, v: nat, sz: nat)
    requires Known(g) && WF(g, g.startLevel, t) && WholePages(g, v, sz) && OnPage(g, v) && Unmapped(g, t, v, sz)
    ensures !Collides(g, t, v, sz) && !MeetsBlock(g, t, v, sz)
    decreases sz
  {
    hide BlockSize, PageSize, Aligned, OnPage, OnBlock, ChunkLevel, WF, Known, PiecePlaces, Needs, Collides,
      WholePages, Lookup, MeetsBlock;
    var k, b := FirstPiece(g, v, sz);
    RegionStep(g, t, v, sz, k, b);
    MeetsBlockStep(g, t, v, sz, k, b);
    assert LookupRoot(g, t, v).None?;
    if b < sz {
      UnmappedIsFree(g, t, v + b, sz - b);
    }
  }

  /** Mapping an unmapped region succeeds exactly when the missing tables can be allocated. It
      then adds exactly the region's translations, keeps every structural property, and takes
      one block for each missing table. */
  lemma MapExact(g: Geometry, t: Table, v: nat, p: nat, sz: nat, pool: Pool)
    requires Sound(g, t, pool) && Pruned(t) && MapArgs(g, v, p, sz) && OnPage(g, v) && Unmapped(g, t, v, sz)
    ensures var r := MapAll(g, t, v, p, sz, pool);
            && r.rc == (if TablesSuffice(g, t, v, sz, pool) then Mapped else NoTable)
            && (r.rc == Mapped ==> Grew(g, t, pool, r.t, r.pool) && Adds(g, t, r.t, v, p, sz)
                                   && |r.pool.live - pool.live| == |Needs(g, t, v, sz)|)
  {
    hide PageSize, OnPage, WF, Known, MapAll, Needs, Collides, Tiling, NoSharing, Blocks, Pruned, CanTake, Extends,
      LookupRoot, RegionHit, WholePages, MeetsBlock;
    OutcomeExact(g, t, v, p, sz, pool);
    UnmappedIsFree(g, t, v, sz);
    MapRefines(g, t, v, p, sz, pool);
    CountUnion(pool.live, MapAll(g, t, v, p, sz, pool).pool.live);
    assert pool.live <= MapAll(g, t, v, p, sz, pool).pool.live ==>
      pool.live + MapAll(g, t, v, p, sz, pool).pool.live == MapAll(g, t, v, p, sz, pool).pool.live;
  }

  /** The tables a region can need: at every level the one its first address is in, unless a
      larger piece starts there, and the one its last address is in. */
  ghost predicate AtEnds(g: Geometry, v: nat, sz: nat, q: Place)
    requires Known(g) && WholePages(g, v, sz)
  {
    && g.startLevel < q.level <= MAX_LEVEL
    && (q == PlaceOf(g, q.level, v + sz - 1)
        || (q == PlaceOf(g, q.level, v) && !(OnBlock(g, q.level - 1, v) && sz >= BlockSize(g, q.level - 1))))
  }

  lemma {:induction false} NeedsAtEnds(g: Geometry, t: Table, v: nat, sz: nat)
    requires Known(g) && WF(g, g.startLevel, t) && WholePages(g, v, sz) && OnPage(g, v)
    ensures forall q | q in Needs(g, t, v, sz) :: AtEnds(g, v, sz, q)
    decreases sz
  {
    hide BlockSize, PageSize, Aligned, OnPage, OnBlock, ChunkLevel, WF, Known, Needs, Collides, WholePages, PlaceOf,
      AtEnds, MappedFrom, PiecePlaces;
    var k, b := FirstPiece(g, v, sz);
    RegionStep(g, t, v, sz, k, b);
    if b < sz {
      NeedsAtEnds(g, t, v + b, sz - b);
    }
    forall q | q in Needs(g, t, v, sz)
      ensures AtEnds(g, v, sz, q)
    {
      if q in PiecePlaces(g, g.startLevel, t, v, k) {
        PieceAtEnds(g, t, v, sz, k, q);
      } else {
        LaterAtEnds(g, v, sz, k, b, q);
      }
    }
  }

  lemma PieceAtEnds(g: Geometry, t: Table, v: nat, sz: nat, k: nat, q: Place)
    requires Known(g) && WF(g, g.startLevel, t) && WholePages(g, v, sz) && AtLevel(g, k) && AtLevel(g, g.startLevel)
    requires k == ChunkLevel(g, g.startLevel, v, sz) && q in PiecePlaces(g, g.startLevel, t, v, k)
    ensures AtEnds(g, v, sz, q)
  {
    hide BlockSize, PageSize, Aligned, ChunkLevel, WF, Known, HasPath, Modulo;
    PlaceLevels(g, v);
    PassedOver(g, g.startLevel, v, sz, q.level - 1);
    BelowWord(g, v, sz);
    AlignedLevel(g, q.level - 1, v);
  }

  lemma AlignedLevel(g: Geometry, l: nat, v: nat)
    requires Known(g) && AtLevel(g, l) && v < WORD
    ensures Aligned(v, BlockSize(g, l)) <==> OnBlock(g, l, v)
  {
    hide BlockSize, Aligned;
    LevelSizes(g, l);
    AlignedIsMultiple(v, BlockSize(g, l));
  }

  lemma LaterAtEnds(g: Geometry, v: nat, sz: nat, k: nat, b: nat, q: Place)
    requires Known(g) && WholePages(g, v, sz) && AtLevel(g, k) && AtLevel(g, g.startLevel) && OnBlock(g, k, v)
    requires k == ChunkLevel(g, g.startLevel, v, sz) && b == BlockSize(g, k) && b < sz
    requires WholePages(g, v + b, sz - b) && AtEnds(g, v + b, sz - b, q)
    ensures AtEnds(g, v, sz, q)
  {
    hide BlockSize, PageSize, Aligned, ChunkLevel, Known;
    var j := q.level - 1;
    var c := BlockSize(g, j);
    if q == PlaceOf(g, q.level, v + b) {
      NestedBlocks(g, if j < k then j else k, if j < k then k else j);
      BelowWord(g, v, sz);
      AlignedLevel(g, j, v);
      if j < k {
        PassedOver(g, g.startLevel, v, sz, j);
      }
      FirstOrLast(v, b, c, sz);
    }
  }

  lemma {:induction false} NestedBlocks(g: Geometry, l: nat, k: nat)
    requires Known(g) && AtLevel(g, l) && AtLevel(g, k) && l <= k
    ensures Modulo(BlockSize(g, l), BlockSize(g, k)) == 0
    decreases k - l
  {
    hide BlockSize, Entries, Known, TableBytes, PageSize;
    if l < k {
      NestedBlocks(g, l, k - 1);
      LevelSizes(g, k);
      MultipleOfMultiple(BlockSize(g, l), BlockSize(g, k - 1), BlockSize(g, k), Entries(g, k));
    } else {
      DivUnique(BlockSize(g, l), BlockSize(g, l), 1);
    }
  }

  lemma MultipleOfMultiple(a: nat, b: nat, c: nat, e: nat)
    requires b > 0 && c > 0 && Modulo(a, b) == 0 && b == e * c
    ensures Modulo(a, c) == 0
  {
    DivBounds(a, b);
    assert a == a / b * e * c by { MulAssoc(a / b, e, c); }
    DivUnique(a, c, a / b * e);
  }

  /** Blocks of size `c` and pieces of size `b` nest: behind a piece at `v` one is in the block
      of `v`, or at the start of a block; and a region that ends in that block has its last
      address there. */
  lemma FirstOrLast(v: nat, b: nat, c: nat, sz: nat)
    requires 0 < b < sz && c > 0 && v % b == 0 && (Modulo(c, b) == 0 || Modulo(b, c) == 0)
    ensures Modulo(b, c) == 0 ==> (v + b) / c != v / c
    ensures (v + b) / c == v / c || (v + b) % c == 0
    ensures (v + b) % c == 0 && sz - b < c ==> (v + b) / c == (v + sz - 1) / c
  {
    if Modulo(b, c) == 0 {
      BehindLarger(v, b, c);
    } else if v + b >= v / c * c + c {
      BehindSmaller(v, b, c);
    } else {
      DivBounds(v, c);
      DivUnique(v + b, c, v / c);
    }
    if (v + b) % c == 0 && sz - b < c {
      DivBounds(v + b, c);
      DivUnique(v + sz - 1, c, (v + b) / c);
    }
  }

  lemma BehindLarger(v: nat, b: nat, c: nat)
    requires 0 < b && c > 0 && v % b == 0 && Modulo(b, c) == 0
    ensures (v + b) / c != v / c && (v + b) % c == 0
  {
    DivBounds(b, c);
    MultipleOfMultiple(v, b, c, b / c);
    SumOfMultiples(v, b, c);
    AddMultiple(v, c, b / c);
  }

  lemma BehindSmaller(v: nat, b: nat, c: nat)
    requires 0 < b && c > 0 && v % b == 0 && Modulo(c, b) == 0 && v + b >= v / c * c + c
    ensures (v + b) % c == 0
  {
    var m := v / c * c + c;
    DivBounds(v, c);
    assert m == (v / c + 1) * c;
    DivUnique(m, c, v / c + 1);
    MultipleOfMultiple(m, c, b, c / b) by { DivBounds(c, b); }
    MultiplesApart(v, m, b);
  }

  /** Two tables per level below the root are always enough. */
  lemma NeedsAreFew(g: Geometry, t: Table, v: nat, sz: nat)
    requires Known(g) && WF(g, g.startLevel, t) && WholePages(g, v, sz) && OnPage(g, v)
    ensures |Needs(g, t, v, sz)| <= 2 * (MAX_LEVEL - g.startLevel)
  {
    hide PageSize, BlockSize, OnPage, WF, Known, Needs, PlacesBelow, AtEnds, OnBlock;
    var k, b := FirstPiece(g, v, sz);
    NeedsAtEnds(g, t, v, sz);
    var first, last := PlacesBelow(g, g.startLevel, v, MAX_LEVEL), PlacesBelow(g, g.startLevel, v + sz - 1, MAX_LEVEL);
    CountPlaces(g, g.startLevel, v, MAX_LEVEL);
    CountPlaces(g, g.startLevel, v + sz - 1, MAX_LEVEL);
    forall q | q in Needs(g, t, v, sz)
      ensures q in first + last
    {
      EndPlaces(g, v, sz, q);
    }
    Smaller(Needs(g, t, v, sz), first + last);
    CountUnion(first, last);
    Smaller(last - first, last);
  }

  lemma EndPlaces(g: Geometry, v: nat, sz: nat, q: Place)
    requires Known(g) && WholePages(g, v, sz) && AtEnds(g, v, sz, q)
    ensures q in PlacesBelow(g, g.startLevel, v, MAX_LEVEL) || q in PlacesBelow(g, g.startLevel, v + sz - 1, MAX_LEVEL)
  {
    hide PageSize, BlockSize, OnBlock, Known, PlaceOf;
  }

  lemma {:induction false} Smaller<T>(a: set<T>, b: set<T>)
    requires a <= b
    ensures |a| <= |b|
    decreases a
  {
    if x :| x in a {
      Smaller(a - {x}, b - {x});
    }
  }

  /** Slot `i` has room for `n` pages, with a slot to spare for each. */
  ghost predicate PagesIn(g: Geometry, fb: seq<Block>, i: nat, n: nat)
    requires Known(g)
  {
    LevelSizes(g, g.startLevel);
    Room(fb, i, PageSize(g), PageSize(g), n)
  }

  /** A free block with room for two pages per level, and as many spare slots in the allocator's
      table, are enough for a map of any unmapped region. */
  lemma MapSucceeds(g: Geometry, t: Table, v: nat, p: nat, sz: nat, pool: Pool, i: nat)
    requires Sound(g, t, pool) && Pruned(t) && MapArgs(g, v, p, sz) && OnPage(g, v) && Unmapped(g, t, v, sz)
    requires PagesIn(g, pool.fb, i, 2 * (MAX_LEVEL - g.startLevel))
    ensures MapAll(g, t, v, p, sz, pool).rc == Mapped
  {
    hide PageSize, OnPage, WF, Known, MapAll, Needs, Tiling, NoSharing, Blocks, Pruned, CanTake, WholePages, PagesIn,
      Unmapped;
    MapExact(g, t, v, p, sz, pool);
    NeedsAreFew(g, t, v, sz);
    RoomTakes(g, pool, i, 2 * (MAX_LEVEL - g.startLevel), |Needs(g, t, v, sz)|);
  }

  lemma RoomTakes(g: Geometry, pool: Pool, i: nat, n: nat, m: nat)
    requires Known(g) && pool.Valid() && m <= n && PagesIn(g, pool.fb, i, n)
    ensures CanTake(g, pool.fb, m)
  {
    hide PageSize, BlockSize, TableBytes, Entries, MmuGeometry.Span, Room, Tiling;
    LevelSizes(g, g.startLevel);
    DivUnique(PageSize(g), PageSize(g), 1);
    RoomSuffices(pool.fb, pool.live, pool.lo, pool.hi, i, PageSize(g), PageSize(g), n);
    AllocInTurn(pool.fb, PageSize(g), PageSize(g), m, n - m);
  }
}
