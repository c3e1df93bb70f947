/** Translation granules and the index arithmetic of the page-table levels
    (ARM DDI0487C, chapter D4; 32-bit virtual addresses, T0SZ = 32). */
module MmuGeometry {
  import opened Words
  import opened Arith

  const MAX_LEVEL := 3
  const T0SZ := 32

  datatype Granule = Granule(pageBits: nat, bitsPerLevel: nat, bitsInFirstLevel: nat, startLevel: nat)

  const G4K := Granule(12, 9, (37 - T0SZ) + 26 - 30 + 1, 1)
  const G16K := Granule(14, 11, (42 - T0SZ) + 21 - 25 + 1, 2)
  const G64K := Granule(16, 13, (38 - T0SZ) + 25 - 29 + 1, 2)

  /** Per-level constants of a context: table bytes, descriptors per table, bytes of address
      space one descriptor covers. */
  datatype Level = Level(ptSize: nat, ptEntries: nat, blockSize: nat)

  /** A context's geometry; entries of `levels` below `startLevel` are unused. */
  datatype Geometry = Geometry(startLevel: nat, pageSize: nat, levels: seq<Level>)

  function IdxBits(g: Granule, l: nat): nat
  {
    if l == g.startLevel then g.bitsInFirstLevel else g.bitsPerLevel
  }

  function LsbBit(g: Granule, l: nat): nat
    requires g.startLevel <= l <= MAX_LEVEL
  {
    g.pageBits + (MAX_LEVEL - g.startLevel - (l - g.startLevel)) * g.bitsPerLevel
  }

  /** The level table `mmu_context_create` fills in. */
  function GeometryOf(g: Granule): Geometry
    requires g.startLevel <= MAX_LEVEL
  {
    Geometry(g.startLevel, Pow2(g.pageBits),
             seq(MAX_LEVEL + 1, l requires 0 <= l <= MAX_LEVEL =>
               if l < g.startLevel then Level(0, 0, 0)
               else Level(8 * Pow2(IdxBits(g, l)), Pow2(IdxBits(g, l)), Pow2(LsbBit(g, l)))))
  }

  predicate AtLevel(g: Geometry, l: nat) { g.startLevel <= l <= MAX_LEVEL }

  function Positive(n: nat): (m: nat)
    ensures m > 0
  {
    if n == 0 then 1 else n
  }

  function At(g: Geometry, l: nat): Level
  {
    if l < |g.levels| then g.levels[l] else Level(0, 0, 0)
  }

  function Entries(g: Geometry, l: nat): (n: nat) ensures n > 0 { Positive(At(g, l).ptEntries) }

  function BlockSize(g: Geometry, l: nat): (n: nat) ensures n > 0 { Positive(At(g, l).blockSize) }

  function TableBytes(g: Geometry, l: nat): (n: nat) ensures n > 0 { Positive(At(g, l).ptSize) }

  function PageSize(g: Geometry): (n: nat) ensures n > 0 { Positive(g.pageSize) }

  /** Address space one whole table covers. */
  function Span(g: Geometry, l: nat): (n: nat)
    ensures n > 0
  {
    if l <= g.startLevel then WORD else BlockSize(g, l - 1)
  }

  /** How the constants of one level fit with the level above and with the page size. */
  predicate LevelFacts(g: Geometry, l: nat)
  {
    && Entries(g, l) * BlockSize(g, l) == Span(g, l)
    && TableBytes(g, l) == 8 * Entries(g, l)
    && (if l > g.startLevel then TableBytes(g, l) == PageSize(g) else TableBytes(g, l) <= PageSize(g))
    && (l == MAX_LEVEL ==> BlockSize(g, l) == PageSize(g))
    && (l > g.startLevel ==> BlockSize(g, l) < BlockSize(g, l - 1))
    && 4096 <= BlockSize(g, l) <= 0x4000_0000 && PageSize(g) <= 0x1_0000
    && WORD % BlockSize(g, l) == 0 && BlockSize(g, l) % PageSize(g) == 0
    && WORD % PageSize(g) == 0 && PageSize(g) % 4096 == 0 && BlockSize(g, l) % 4096 == 0
  }

  ghost predicate Known(g: Geometry)
  {
    1 <= g.startLevel <= MAX_LEVEL && forall l: nat {:trigger LevelFacts(g, l)} :: AtLevel(g, l) ==> LevelFacts(g, l)
  }

  lemma LevelSizes(g: Geometry, l: nat)
    requires Known(g) && AtLevel(g, l)
    ensures LevelFacts(g, l)
  {
  }

  lemma Pow2Values()
    ensures Pow2(2) == 4 && Pow2(3) == 8 && Pow2(7) == 128 && Pow2(9) == 512 && Pow2(11) == 2048
    ensures Pow2(12) == 0x1000 && Pow2(13) == 0x2000 && Pow2(14) == 0x4000 && Pow2(16) == 0x1_0000
    ensures Pow2(21) == 0x20_0000 && Pow2(25) == 0x200_0000 && Pow2(29) == 0x2000_0000 && Pow2(30) == 0x4000_0000
  {
  }

  /** The three granules give coherent geometries. */
  lemma GranulesKnown(g: Granule)
    requires g == G4K || g == G16K || g == G64K
    ensures Known(GeometryOf(g))
  {
    hide Pow2;
    Pow2Values();
    var geo := GeometryOf(g);
    forall l: nat | AtLevel(geo, l)
      ensures LevelFacts(geo, l)
    {
      assert At(geo, l) == Level(8 * Pow2(IdxBits(g, l)), Pow2(IdxBits(g, l)), Pow2(LsbBit(g, l)));
      assert l > g.startLevel ==> At(geo, l - 1).blockSize == Pow2(LsbBit(g, l - 1));
    }
  }

  /** `v` is the first byte of a page, of a level-`l` block. */
  predicate OnPage(g: Geometry, v: nat) { v % PageSize(g) == 0 }
  predicate OnBlock(g: Geometry, l: nat, v: nat) { v % BlockSize(g, l) == 0 }

  /** `pt_index`: the descriptor of a level-`l` table that covers `v`. */
  function Index(g: Geometry, l: nat, v: nat): (i: nat)
    ensures i < Entries(g, l)
  {
    Modulo(Quotient(v, BlockSize(g, l)), Entries(g, l))
  }

  function Modulo(n: nat, d: nat): (r: nat)
    requires d > 0
    ensures r < d
  {
    n % d
  }

  /** Numbers of the level-`l` blocks and of the level-`l` tables' ranges nest. */
  lemma BlockNumber(g: Geometry, l: nat, v: nat)
    requires Known(g) && AtLevel(g, l)
    ensures v / BlockSize(g, l) == v / Span(g, l) * Entries(g, l) + Index(g, l, v)
  {
    hide BlockSize, Entries, Span, AtLevel;
    LevelSizes(g, l);
    QuotientNests(v, BlockSize(g, l), Entries(g, l));
  }

  lemma QuotientNests(v: nat, b: nat, e: nat)
    requires b > 0 && e > 0
    ensures b * e > 0
    ensures v / b == v / (b * e) * e + v / b % e
  {
    assert b * e > 0;
    var q := v / b;
    DivBounds(v, b);
    DivBounds(q, e);
    var k := q / e;
    assert k * (b * e) == k * e * b;
    MulMonotone(k * e, q, b);
    MulMonotone(q + 1, k * e + e, b);
    assert (q + 1) * b == q * b + b;
    assert (k * e + e) * b == k * (b * e) + b * e;
    DivUnique(v, b * e, k);
  }

  /** Two addresses take the same descriptors at levels `l` to `last`. */
  predicate SamePath(g: Geometry, l: nat, last: nat, x: nat, y: nat)
    requires l <= last
    decreases last - l
  {
    Index(g, l, x) == Index(g, l, y) && (l < last ==> SamePath(g, l + 1, last, x, y))
  }

  lemma {:induction false} SamePathTrans(g: Geometry, l: nat, last: nat, x: nat, y: nat, z: nat)
    requires l <= last && SamePath(g, l, last, x, y)
    ensures SamePath(g, l, last, y, x)
    ensures SamePath(g, l, last, y, z) <==> SamePath(g, l, last, x, z)
    decreases last - l
  {
    if l < last {
      SamePathTrans(g, l + 1, last, x, y, z);
    }
  }

  lemma {:induction false} SamePathPrefix(g: Geometry, l: nat, mid: nat, last: nat, x: nat, y: nat)
    requires l <= mid <= last && SamePath(g, l, last, x, y)
    ensures SamePath(g, l, mid, x, y)
    decreases last - l
  {
    if l < mid {
      SamePathPrefix(g, l + 1, mid, last, x, y);
    }
  }

  lemma {:induction false} SameTableSameBlock(g: Geometry, l: nat, last: nat, x: nat, y: nat)
    requires Known(g) && AtLevel(g, l) && l <= last <= MAX_LEVEL
    requires x / Span(g, l) == y / Span(g, l)
    ensures SamePath(g, l, last, x, y) <==> x / BlockSize(g, last) == y / BlockSize(g, last)
    decreases last - l
  {
    hide BlockSize, Entries, Index;
    BlockNumber(g, l, x);
    BlockNumber(g, l, y);
    if l < last {
      if Index(g, l, x) == Index(g, l, y) {
        SameTableSameBlock(g, l + 1, last, x, y);
      } else if x / BlockSize(g, last) == y / BlockSize(g, last) {
        CoarserAgrees(g, l, last, x, y);
      }
    }
  }

  /** Addresses in one block are in one block at every shallower level. */
  lemma {:induction false} CoarserAgrees(g: Geometry, l: nat, last: nat, x: nat, y: nat)
    requires Known(g) && AtLevel(g, l) && l <= last <= MAX_LEVEL
    requires x / BlockSize(g, last) == y / BlockSize(g, last)
    ensures x / BlockSize(g, l) == y / BlockSize(g, l)
    decreases last - l
  {
    hide BlockSize, Entries, Index;
    if l < last {
      CoarserAgrees(g, l + 1, last, x, y);
      SpanAgrees(g, l + 1, x, y);
    }
  }

  lemma SpanAgrees(g: Geometry, l: nat, x: nat, y: nat)
    requires Known(g) && AtLevel(g, l) && x / BlockSize(g, l) == y / BlockSize(g, l)
    ensures x / Span(g, l) == y / Span(g, l)
  {
    hide BlockSize, Entries, Index, Span, AtLevel;
    BlockNumber(g, l, x);
    BlockNumber(g, l, y);
    EuclideanUnique(x / Span(g, l), Index(g, l, x), y / Span(g, l), Index(g, l, y), Entries(g, l));
  }

  lemma EuclideanUnique(q: nat, r: nat, q': nat, r': nat, e: nat)
    requires r < e && r' < e && q * e + r == q' * e + r'
    ensures q == q' && r == r'
  {
    DivUnique(q * e + r, e, q);
    DivUnique(q * e + r, e, q');
  }

  /** Below 2^32 the addresses that share a path down to level `last` with a block's first
      address are exactly the block. */
  lemma PathIsBlock(g: Geometry, last: nat, c: nat, x: nat)
    requires Known(g) && AtLevel(g, last) && c < WORD && x < WORD && OnBlock(g, last, c)
    ensures SamePath(g, g.startLevel, last, c, x) <==> c <= x < c + BlockSize(g, last)
  {
    hide BlockSize, SamePath;
    SameTableSameBlock(g, g.startLevel, last, c, x);
    var b := BlockSize(g, last);
    DivBounds(c, b);
    DivBounds(x, b);
    if c <= x < c + b {
      DivUnique(x, b, c / b);
    }
  }

  /** First address of block `i` of the table range starting at `base`. */
  function BlockStart(g: Geometry, l: nat, base: nat, i: nat): nat
  {
    base + i * BlockSize(g, l)
  }

  /** The block whose number is `i` inside the table range starting at `base`. */
  lemma IndexOfBlock(g: Geometry, l: nat, base: nat, i: nat, x: nat)
    requires Known(g) && AtLevel(g, l) && base % Span(g, l) == 0 && i < Entries(g, l)
    requires var start := BlockStart(g, l, base, i); start <= x < start + BlockSize(g, l)
    ensures Index(g, l, x) == i
    ensures base <= BlockStart(g, l, base, i) && BlockStart(g, l, base, i) + BlockSize(g, l) <= base + Span(g, l)
    ensures BlockStart(g, l, base, i) % BlockSize(g, l) == 0
  {
    hide BlockSize, Entries, Span, AtLevel, Modulo, Quotient;
    LevelSizes(g, l);
    BlockInRange(base, i, x, BlockSize(g, l), Entries(g, l), Span(g, l), BlockStart(g, l, base, i));
  }

  lemma BlockInRange(base: nat, i: nat, x: nat, b: nat, e: nat, s: nat, start: nat)
    requires b > 0 && e > 0 && i < e && s > 0 && s == e * b && base % s == 0
    requires start == base + i * b && start <= x < start + b
    ensures Modulo(Quotient(x, b), e) == i && base <= start && start + b <= base + s && start % b == 0
  {
    MulMonotone(i + 1, e, b);
    assert (i + 1) * b == i * b + b;
    DivBounds(base, e * b);
    var k := base / (e * b);
    assert k * (e * b) == k * e * b;
    assert (k * e + i) * b == k * e * b + i * b;
    DivUnique(x, b, k * e + i);
    DivUnique(base + i * b, b, k * e + i);
    DivUnique(k * e + i, e, k);
  }
}
