/** The translation context of drivers/mmu.c: page tables in memory, changed descriptor by
    descriptor. Each method leaves what the tree-level functions say. */
module MmuContext {
  import opened Words
  import opened Bits
  import opened MmuGeometry
  import opened MmuTree
  import opened MmuMap
  import opened MmuRefine
  import opened MmuTables
  import opened MmuAbsent
  import opened MmuUnmap
  import opened MmuRestore
  import opened MmuFree
  import opened MmuMemory
  import opened MmuSteps
  import opened MmuRun
  import opened Balloc

  class Context {
    const g: Geometry
    const balloc: Allocator
    var pt: u32
    var mem: Memory
    ghost var tree: Table

    ghost predicate Valid()
      reads this, balloc, balloc.freeBlocks
    {
      balloc.Valid() && Stored(g, tree, balloc.State(), mem) && pt == tree.addr
    }

    /** A context object before `Create`. */
    constructor (granule: Granule, balloc: Allocator, mem: Memory)
      requires granule == G4K || granule == G16K || granule == G64K
      ensures g == GeometryOf(granule) && Known(g) && this.balloc == balloc && this.mem == mem
    {
      g := GeometryOf(granule);
      this.balloc := balloc;
      this.mem := mem;
      new;
      GranulesKnown(granule);
    }

    /** An aligned table from the allocator, every descriptor invalid; 0 when memory is out. */
    method PtAlloc(level: nat) returns (table: u32)
      requires balloc.Valid() && Known(g) && AtLevel(g, level)
      modifies this`mem, balloc`live, balloc.freeBlocks
      ensures balloc.Valid()
      ensures (table, balloc.State()) == TakeTable(g, level, old(balloc.State()))
      ensures table == 0 ==> mem == old(mem)
      ensures table != 0 ==> forall i | 0 <= i < Entries(g, level) :: Read(mem, Slot(table, i)) == INVALID_DESC
      ensures table != 0 ==> OnlyWithin(old(mem), mem, table, TableBytes(g, level))
    {
      hide Entries, TableBytes, PageSize, BlockSize, MmuGeometry.Span, Pool.Valid, Pool.Take, Known, SafeSize;
      TableSizes(g, level);
      table := balloc.Allocate(TableBytes(g, level), PageSize(g));
      if table == 0 {
        return;
      }
      var i := 0;
      while i < Entries(g, level)
        invariant 0 <= i <= Entries(g, level)
        invariant forall j | 0 <= j < i :: Read(mem, Slot(table, j)) == INVALID_DESC
        invariant OnlyWithin(old(mem), mem, table, TableBytes(g, level))
        invariant balloc.State() == TakeTable(g, level, old(balloc.State())).1
      {
        mem := mem[Slot(table, i) := INVALID_DESC];
        i := i + 1;
      }
    }

    /** `mmu_context_create`: an empty root table. */
    method Create() returns (ok: bool)
      requires balloc.Valid() && Known(g)
      modifies this, balloc`live, balloc.freeBlocks
      ensures ok ==> Valid() && Fresh(g, tree, balloc.State())
      ensures ok ==> balloc.live == old(balloc.live) + {OwnBlock(g, g.startLevel, tree)}
      ensures ok ==> OwnBlock(g, g.startLevel, tree) !in old(balloc.live)
      ensures ok ==> OnlyWithin(old(mem), mem, pt, TableBytes(g, g.startLevel))
      ensures !ok ==> balloc.State() == old(balloc.State())
    {
      hide Entries, TableBytes, PageSize, BlockSize, MmuGeometry.Span, Tiling, PlaceOk, Slot, Read, OnlyWithin;
      pt := PtAlloc(g.startLevel);
      RootPlace(g, old(balloc.State()), pt, balloc.State());
      ok := pt != 0;
      if ok {
        tree := EmptyTable(g, g.startLevel, pt);
        FreshTableRep(g, g.startLevel, pt, mem);
        EmptyTableBlocks(g, g.startLevel, tree);
      }
    }

    /** The walk of `mmu_map` for one piece, linking tables that are missing. `ok` is false
        when a table could not be allocated. */
    method Descend(v: nat, sz: nat) returns (ok: bool, level: nat, table: u32)
      requires Valid()
      modifies this`mem, this`tree, balloc`live, balloc.freeBlocks
      ensures Valid() && tree.addr == old(tree.addr)
      ensures Grow(g, g.startLevel, old(tree), v, ChunkLevel(g, g.startLevel, v, sz), old(balloc.State()))
              == Grown(tree, balloc.State(), ok)
      ensures ok ==> level == ChunkLevel(g, g.startLevel, v, sz)
      ensures ok ==> HasPath(g, g.startLevel, tree, v, level) && table == TableAt(g, g.startLevel, tree, v, level).addr
      ensures Blocks(g, g.startLevel, old(tree)) <= Blocks(g, g.startLevel, tree)
      ensures OutsideSame(Blocks(g, g.startLevel, tree), old(mem), mem)
    {
      hide OutsideSame, BlockSize, PageSize, TableBytes, Entries, MmuGeometry.Span, Aligned, Tiling, PlaceOk, Index,
        Grow, NewTable, Blocks, NoSharing, Rep, IsValid, IsTable, NextTable, Read, Slot, Enc, TableDesc, OnlyWithin,
        Lookup, SetEntry, Pool.Take, HasPath, TableAt;
      ghost var k := ChunkLevel(g, g.startLevel, v, sz);
      level, table := g.startLevel, pt;
      RootPath(g, tree, v);
      OutsideSelf(Blocks(g, g.startLevel, tree), mem);
      while level < MAX_LEVEL && !(Aligned(v, BlockSize(g, level)) && sz >= BlockSize(g, level))
        invariant Valid() && tree.addr == old(tree.addr) && g.startLevel <= level <= MAX_LEVEL
        invariant ChunkLevel(g, g.startLevel, v, sz) == ChunkLevel(g, level, v, sz)
        invariant HasPath(g, g.startLevel, tree, v, level) && table == TableAt(g, g.startLevel, tree, v, level).addr
        invariant Grow(g, g.startLevel, old(tree), v, k, old(balloc.State()))
                  == Grow(g, g.startLevel, tree, v, k, balloc.State())
        invariant Blocks(g, g.startLevel, old(tree)) <= Blocks(g, g.startLevel, tree)
        invariant OutsideSame(Blocks(g, g.startLevel, tree), old(mem), mem)
        decreases MAX_LEVEL - level
      {
        var desc := Read(mem, Slot(table, Index(g, level, v)));
        ReadEntry(g, g.startLevel, tree, v, level, mem);
        DecodeEnc(g, level, EntryAt(g, g.startLevel, tree, v, level));
        if IsTable(desc) {
          LongerPath(g, g.startLevel, tree, v, level);
          table := NextTable(g, desc);
        } else {
          ghost var t, pool, m := tree, balloc.State(), mem;
          var next := PtAlloc(level + 1);
          GrowStep(g, g.startLevel, t, v, level, k, pool);
          NewTablePlace(g, level + 1, pool, next, balloc.State());
          if next == 0 {
            return false, level, 0;
          }
          FreshTableRep(g, level + 1, next, mem);
          LinkTable(g, t, v, level, pool, m, mem);
          mem := mem[Slot(table, Index(g, level, v)) := TableDesc(next)];
          tree := SetEntry(g, g.startLevel, t, v, level, Sub(EmptyTable(g, level + 1, next)));
          OutsideTrans(Blocks(g, g.startLevel, t), Blocks(g, g.startLevel, tree), old(mem), m, mem);
          table := next;
        }
        level := level + 1;
      }
      ok := true;
      GrowDone(g, g.startLevel, tree, v, level, balloc.State());
    }

    /** One piece of a region. */
    method Enter(v: nat, p: nat, sz: nat) returns (rc: Rc, level: nat)
      requires Valid() && p < MAX_PA
      modifies this`mem, this`tree, balloc`live, balloc.freeBlocks
      ensures Valid()
      ensures MapResult(rc, tree, balloc.State()) ==
              MapPiece(g, old(tree), v, p, ChunkLevel(g, g.startLevel, v, sz), old(balloc.State()))
      ensures rc == Mapped ==> level == ChunkLevel(g, g.startLevel, v, sz)
      ensures Blocks(g, g.startLevel, old(tree)) <= Blocks(g, g.startLevel, tree)
      ensures OutsideSame(Blocks(g, g.startLevel, tree), old(mem), mem)
    {
      hide OutsideSame, BlockSize, PageSize, Aligned, Tiling, PlaceOk, Index, Grow, Blocks, NoSharing, Rep, IsValid,
        Read, Slot, Enc, Lookup, SetEntry, HasPath, TableAt, PaField;
      var ok, table;
      ok, level, table := Descend(v, sz);
      if !ok {
        return NoTable, level;
      }
      var desc := Read(mem, Slot(table, Index(g, level, v)));
      ReadEntry(g, g.startLevel, tree, v, level, mem);
      DecodeEnc(g, level, EntryAt(g, g.startLevel, tree, v, level));
      if IsValid(desc) {
        return Overlap, level;
      }
      ghost var t, m := tree, mem;
      PlainWrite(g, t, v, level, Leaf(PaField(p)), balloc.State(), mem);
      assert Enc(level, Leaf(PaField(p))) == LeafDesc(level, PaField(p)) by { EncLeaf(level, PaField(p)); }
      mem := mem[Slot(table, Index(g, level, v)) := LeafDesc(level, PaField(p))];
      tree := SetEntry(g, g.startLevel, tree, v, level, Leaf(PaField(p)));
      OutsideTrans(Blocks(g, g.startLevel, t), Blocks(g, g.startLevel, t), old(mem), m, mem);
      rc := Mapped;
    }

    /** `mmu_map`: 0 when everything was entered, -1 on a size that is not whole pages or on an
        overlap, -2 when a table could not be allocated. Which of them is decided by the tree
        and the free blocks before the call. */
    method Map(vaddr: nat, paddr: nat, size: nat) returns (rc: int)
      requires Valid() && 0 < size < WORD && vaddr + size <= WORD && paddr + size <= MAX_PA
      modifies this`mem, this`tree, balloc`live, balloc.freeBlocks
      ensures Valid()
      ensures !MapArgs(g, vaddr, paddr, size) ==>
        rc == -1 && tree == old(tree) && mem == old(mem) && balloc.State() == old(balloc.State())
      ensures MapArgs(g, vaddr, paddr, size) ==>
        var r := MapAll(g, old(tree), vaddr, paddr, size, old(balloc.State()));
        && tree == r.t && balloc.State() == r.pool
        && rc == (match r.rc case Mapped => 0 case Overlap => -1 case NoTable => -2)
      ensures MapArgs(g, vaddr, paddr, size) && OnPage(g, vaddr) && Pruned(old(tree)) ==>
        rc == if !TablesSuffice(g, old(tree), vaddr, size, old(balloc.State())) then -2
              else if Collides(g, old(tree), vaddr, size) then -1 else 0
      ensures OutsideSame(Blocks(g, g.startLevel, tree), old(mem), mem)
    {
      hide BlockSize, PageSize, Aligned, Stored, ChunkLevel, MapPiece, MapAll, OutsideSame, Blocks, Pruned, OnPage,
        Collides, TablesSuffice;
      SizeTest(g, tree, balloc.State(), mem, size);
      OutsideSelf(Blocks(g, g.startLevel, tree), mem);
      if !Aligned(size, PageSize(g)) {
        return -1;
      }
      if OnPage(g, vaddr) && Pruned(tree) {
        StoredParts(g, tree, balloc.State(), mem);
        OutcomeExact(g, tree, vaddr, paddr, size, balloc.State());
      }
      var v: nat, p: nat, sz: nat := vaddr, paddr, size;
      while true
        invariant Valid() && WF(g, g.startLevel, tree) && MapArgs(g, v, p, sz)
        invariant OutsideSame(Blocks(g, g.startLevel, tree), old(mem), mem)
        invariant MapAll(g, old(tree), vaddr, paddr, size, old(balloc.State()))
                  == MapAll(g, tree, v, p, sz, balloc.State())
        decreases sz
      {
        ghost var t, pool, m := tree, balloc.State(), mem;
        StoredParts(g, t, pool, mem);
        var r, level := Enter(v, p, sz);
        StoredParts(g, tree, balloc.State(), mem);
        OutsideTrans(Blocks(g, g.startLevel, t), Blocks(g, g.startLevel, tree), old(mem), m, mem);
        ghost var k := ChunkLevel(g, g.startLevel, v, sz);
        ChunkFits(g, v, sz);
        MapAllStep(g, t, v, p, sz, pool, k, BlockSize(g, k));
        if r == Overlap {
          return -1;
        }
        if r == NoTable {
          return -2;
        }
        v, p, sz := v + BlockSize(g, level), p + BlockSize(g, level), sz - BlockSize(g, level);
        if sz == 0 {
          return 0;
        }
      }
    }

    /** `pt_free`: the table and everything below it, children first. */
    method PtFree(table: u32, level: nat, ghost t: Table) returns (rc: int)
      requires balloc.Valid() && Known(g) && WF(g, level, t) && t.addr == table && Rep(g, level, t, mem)
      requires NoSharing(g, level, t) && Blocks(g, level, t) <= balloc.live
      modifies balloc`live, balloc.freeBlocks
      ensures balloc.Valid()
      ensures (rc, balloc.State()) == FreeTable(g, level, t, old(balloc.State()))
      decreases MAX_LEVEL - level
    {
      hide TableBytes, PageSize, BlockSize, Tiling, PlaceOk, Blocks, NoSharing, Read, Slot, Enc, IsTable, NextTable,
        Pool.Give, BlocksFrom, Unused, EntryBlocks, Entries;
      AllBlocks(g, level, t);
      var i := 0;
      while i < Entries(g, level)
        invariant 0 <= i <= Entries(g, level) && balloc.Valid()
        invariant BlocksFrom(g, level, t, i) + {OwnBlock(g, level, t)} <= balloc.live
        invariant FreeEntries(g, level, t, 0, old(balloc.State())) == FreeEntries(g, level, t, i, balloc.State())
      {
        var desc := Read(mem, Slot(table, i));
        DecodeEnc(g, level, t.ents[i]);
        assert BlocksFrom(g, level, t, i) == EntryBlocks(g, level, t.ents[i]) + BlocksFrom(g, level, t, i + 1) by {
          BlocksFromStep(g, level, t, i);
        }
        if level < MAX_LEVEL && IsTable(desc) {
          ghost var pool := balloc.State();
          EntryBlocksWithin(g, level, t, i);
          EntryApartFromRest(g, level, t, i);
          OwnOutside(g, level, t, i);
          assert EntryBlocks(g, level, t.ents[i]) == Blocks(g, level + 1, t.ents[i].t) by {
            SubBlocks(g, level, t.ents[i]);
          }
          FreesEachOnce(g, level + 1, t.ents[i].t, pool);
          rc := PtFree(NextTable(g, desc), level + 1, t.ents[i].t);
          if rc != 0 {
            return rc;
          }
          StillLive(pool, (0, balloc.State()), EntryBlocks(g, level, t.ents[i]),
                    BlocksFrom(g, level, t, i + 1) + {OwnBlock(g, level, t)});
        }
        i := i + 1;
      }
      rc := balloc.Release(table, TableBytes(g, level));
    }

    /** The walk of `mmu_unmap`, recorded level by level; every table on it must be there. */
    method WalkDown(v: nat, sz: nat, walk: array<WalkStep>) returns (found: bool, level: nat, table: u32)
      requires Valid() && walk.Length == MAX_LEVEL + 1
      modifies walk
      ensures found <==> HasPath(g, g.startLevel, tree, v, ChunkLevel(g, g.startLevel, v, sz))
      ensures found ==> level == ChunkLevel(g, g.startLevel, v, sz)
                        && table == TableAt(g, g.startLevel, tree, v, level).addr
      ensures found ==> Steps(g, tree, v, level, walk[..])
    {
      hide BlockSize, PageSize, TableBytes, Entries, MmuGeometry.Span, Aligned, Tiling, PlaceOk, Index, Blocks,
        NoSharing, Rep, IsTable, NextTable, Read, Slot, Enc, HasPath, TableAt;
      level, table := g.startLevel, pt;
      RootPath(g, tree, v);
      while level < MAX_LEVEL
        invariant g.startLevel <= level <= MAX_LEVEL
        invariant ChunkLevel(g, g.startLevel, v, sz) == ChunkLevel(g, level, v, sz)
        invariant HasPath(g, g.startLevel, tree, v, level) && table == TableAt(g, g.startLevel, tree, v, level).addr
        invariant Steps(g, tree, v, level, walk[..])
      {
        var index := Index(g, level, v);
        var desc := Read(mem, Slot(table, index));
        walk[level] := WalkStep(table, index);
        if Aligned(v, BlockSize(g, level)) && sz >= BlockSize(g, level) {
          break;
        }
        ReadEntry(g, g.startLevel, tree, v, level, mem);
        DecodeEnc(g, level, EntryAt(g, g.startLevel, tree, v, level));
        LongerPath(g, g.startLevel, tree, v, level);
        if !IsTable(desc) {
          NoLongerPath(g, tree, v, level, ChunkLevel(g, g.startLevel, v, sz));
          return false, level, table;
        }
        table := NextTable(g, desc);
        level := level + 1;
      }
      found := true;
    }

    /** The emptiness scan of the backwards walk. */
    method TableEmpty(table: u32, level: nat, ghost t: Table) returns (empty: bool)
      requires Known(g) && WF(g, level, t) && t.addr == table && Rep(g, level, t, mem)
      ensures empty <==> !NonEmpty(t)
    {
      hide PlaceOk, Entries, Read, Slot, Enc, IsValid;
      var i := 0;
      while i < Entries(g, level)
        invariant 0 <= i <= Entries(g, level)
        invariant forall j | 0 <= j < i :: t.ents[j].Invalid?
      {
        DecodeEnc(g, level, t.ents[i]);
        if IsValid(Read(mem, Slot(table, i))) {
          return false;
        }
        i := i + 1;
      }
      empty := true;
    }

    /** The backwards walk: empty tables are unlinked and freed, bottom up. */
    method WalkBack(v: nat, bottom: nat, walk: array<WalkStep>) returns (rc: int)
      requires Valid() && walk.Length == MAX_LEVEL + 1 && HasPath(g, g.startLevel, tree, v, bottom)
      requires Steps(g, tree, v, bottom, walk[..])
      modifies this`mem, this`tree, balloc`live, balloc.freeBlocks
      ensures Valid()
      ensures Walked(tree, balloc.State(), rc) == BackWalk(g, g.startLevel, old(tree), v, bottom, old(balloc.State()))
      ensures Blocks(g, g.startLevel, tree) <= Blocks(g, g.startLevel, old(tree))
      ensures OutsideSame(Blocks(g, g.startLevel, old(tree)), old(mem), mem)
    {
      hide OutsideSame, BlockSize, PageSize, TableBytes, Entries, Tiling, PlaceOk, Index, Blocks, NoSharing, Rep,
        IsTable, NextTable, Read, Slot, Enc, HasPath, TableAt, SetEntry, BackWalk, Pool.Give, FreeTable, Sound;
      StoredParts(g, tree, balloc.State(), mem);
      PathLevels(g, g.startLevel, tree, v, bottom);
      OutsideSelf(Blocks(g, g.startLevel, tree), mem);
      var level := bottom;
      while level > g.startLevel
        invariant g.startLevel <= level <= bottom <= MAX_LEVEL && Valid()
        invariant WF(g, g.startLevel, tree) && HasPath(g, g.startLevel, tree, v, level)
                  && Steps(g, tree, v, level, walk[..])
        invariant BackWalk(g, g.startLevel, old(tree), v, bottom, old(balloc.State()))
                  == BackWalk(g, g.startLevel, tree, v, level, balloc.State())
        invariant Blocks(g, g.startLevel, tree) <= Blocks(g, g.startLevel, old(tree))
        invariant OutsideSame(Blocks(g, g.startLevel, old(tree)), old(mem), mem)
      {
        level := level - 1;
        ghost var t, pool, m := tree, balloc.State(), mem;
        StoredParts(g, t, pool, mem);
        BackStep(g, g.startLevel, t, v, level + 1, pool);
        ghost var s := TableAt(g, g.startLevel, t, v, level + 1);
        ghost var above := Above(g, t, v, level + 1);
        var step := walk[level];
        assert step == WalkStep(above.addr, Index(g, level, v));
        var desc := Read(mem, Slot(step.pt, step.index));
        ReadEntry(g, g.startLevel, t, v, level, mem);
        ReadEntry(g, g.startLevel, t, v, level + 1, mem);
        DecodeEnc(g, level, Sub(s));
        var next := NextTable(g, desc);
        var empty := TableEmpty(next, level + 1, s);
        if !empty {
          return 0;
        }
        Unlink(g, t, v, level + 1, pool, mem);
        StepsStay(g, t, v, level, Invalid, level, walk[..]);
        FreeEmpty(g, level + 1, s, pool);
        mem := mem[Slot(step.pt, step.index) := INVALID_DESC];
        tree := SetEntry(g, g.startLevel, t, v, level, Invalid);
        Widen(Blocks(g, g.startLevel, t), Blocks(g, g.startLevel, old(tree)), m, mem);
        OutsideTrans(Blocks(g, g.startLevel, old(tree)), Blocks(g, g.startLevel, old(tree)), old(mem), m, mem);
        rc := PtFree(next, level + 1, s);
        if rc != 0 {
          return rc;
        }
      }
      rc := 0;
      BackWalkTop(g, tree, v, balloc.State());
    }

    /** One piece of a region. */
    method Remove(v: nat, sz: nat) returns (rc: UnmapRc, level: nat)
      requires Valid()
      modifies this`mem, this`tree, balloc`live, balloc.freeBlocks
      ensures Valid()
      ensures UnmapResult(rc, tree, balloc.State()) ==
              UnmapPiece(g, old(tree), v, ChunkLevel(g, g.startLevel, v, sz), old(balloc.State()))
      ensures rc != Missing ==> level == ChunkLevel(g, g.startLevel, v, sz)
      ensures Blocks(g, g.startLevel, tree) <= Blocks(g, g.startLevel, old(tree))
      ensures OutsideSame(Blocks(g, g.startLevel, old(tree)), old(mem), mem)
    {
      hide OutsideSame, BlockSize, PageSize, TableBytes, Entries, Aligned, Tiling, PlaceOk, Index, Blocks, NoSharing,
        Rep, IsValid, Read, Slot, Enc, HasPath, TableAt, SetEntry, BackWalk, Sound, Steps;
      StoredParts(g, tree, balloc.State(), mem);
      OutsideSelf(Blocks(g, g.startLevel, tree), mem);
      var walk := new WalkStep[MAX_LEVEL + 1];
      var found, table;
      found, level, table := WalkDown(v, sz, walk);
      if !found {
        return Missing, level;
      }
      var desc := Read(mem, Slot(table, Index(g, level, v)));
      ReadEntry(g, g.startLevel, tree, v, level, mem);
      DecodeEnc(g, level, EntryAt(g, g.startLevel, tree, v, level));
      if !IsValid(desc) {
        return Missing, level;
      }
      PlainWrite(g, tree, v, level, Invalid, balloc.State(), mem);
      StepsStay(g, tree, v, level, Invalid, level, walk[..]);
      assert Enc(level, Invalid) == INVALID_DESC by { EncInvalid(level); }
      mem := mem[Slot(table, Index(g, level, v)) := INVALID_DESC];
      tree := SetEntry(g, g.startLevel, tree, v, level, Invalid);
      ghost var u, m := tree, mem;
      var code := WalkBack(v, level, walk);
      Widen(Blocks(g, g.startLevel, u), Blocks(g, g.startLevel, old(tree)), m, mem);
      OutsideTrans(Blocks(g, g.startLevel, old(tree)), Blocks(g, g.startLevel, old(tree)), old(mem), m, mem);
      rc := if code == 0 then Removed else FreeFailed;
    }

    /** `mmu_unmap`: 0 when every piece was removed; -1 on a size that is not whole pages, on a
        descriptor that is not there, or when a table could not be given back. With a free slot
        for every table, 0 exactly when every piece was there, and the pieces before the first
        that was not are gone. */
    method Unmap(vaddr: nat, size: nat) returns (rc: int)
      requires Valid() && 0 < size < WORD && vaddr + size <= WORD
      modifies this`mem, this`tree, balloc`live, balloc.freeBlocks
      ensures Valid()
      ensures !WholePages(g, vaddr, size) ==>
        rc == -1 && tree == old(tree) && mem == old(mem) && balloc.State() == old(balloc.State())
      ensures WholePages(g, vaddr, size) ==>
        var r := UnmapAll(g, old(tree), vaddr, size, old(balloc.State()));
        tree == r.t && balloc.State() == r.pool && rc == (if r.rc == Removed then 0 else -1)
      ensures WholePages(g, vaddr, size) && OnPage(g, vaddr) && Pruned(old(tree)) ==>
        && (rc == 0 ==> Present(g, old(tree), vaddr, size) == size && Removes(g, old(tree), tree, vaddr, size))
        && (Enough(g, old(tree), old(balloc.State())) ==>
              (rc == 0 <==> Present(g, old(tree), vaddr, size) == size)
              && Removes(g, old(tree), tree, vaddr, Present(g, old(tree), vaddr, size)))
      ensures OutsideSame(Blocks(g, g.startLevel, old(tree)), old(mem), mem)
    {
      hide BlockSize, PageSize, Aligned, Stored, ChunkLevel, UnmapPiece, UnmapAll, OutsideSame, Blocks, Pruned,
        OnPage, Present, Enough, Removes;
      SizeTest(g, tree, balloc.State(), mem, size);
      OutsideSelf(Blocks(g, g.startLevel, tree), mem);
      if !Aligned(size, PageSize(g)) {
        return -1;
      }
      if OnPage(g, vaddr) && Pruned(tree) {
        StoredParts(g, tree, balloc.State(), mem);
        UnmapExact(g, tree, vaddr, size, balloc.State());
      }
      var v: nat, sz: nat := vaddr, size;
      while true
        invariant Valid() && WF(g, g.startLevel, tree) && WholePages(g, v, sz)
        invariant Blocks(g, g.startLevel, tree) <= Blocks(g, g.startLevel, old(tree))
        invariant OutsideSame(Blocks(g, g.startLevel, old(tree)), old(mem), mem)
        invariant UnmapAll(g, old(tree), vaddr, size, old(balloc.State())) == UnmapAll(g, tree, v, sz, balloc.State())
        decreases sz
      {
        ghost var t, pool, m := tree, balloc.State(), mem;
        StoredParts(g, t, pool, mem);
        var r, level := Remove(v, sz);
        StoredParts(g, tree, balloc.State(), mem);
        Widen(Blocks(g, g.startLevel, t), Blocks(g, g.startLevel, old(tree)), m, mem);
        OutsideTrans(Blocks(g, g.startLevel, old(tree)), Blocks(g, g.startLevel, old(tree)), old(mem), m, mem);
        ghost var k := ChunkLevel(g, g.startLevel, v, sz);
        ChunkFits(g, v, sz);
        UnmapAllStep(g, t, v, sz, pool, k, BlockSize(g, k));
        if r != Removed {
          return -1;
        }
        v, sz := v + BlockSize(g, level), sz - BlockSize(g, level);
        if sz == 0 {
          return 0;
        }
      }
    }

    /** `mmu_context_destroy`: on success exactly the context's tables were given back, each
        once. */
    method Destroy() returns (rc: int)
      requires Valid()
      modifies balloc`live, balloc.freeBlocks
      ensures balloc.Valid()
      ensures (rc, balloc.State()) == FreeTable(g, g.startLevel, tree, old(balloc.State()))
      ensures GivesBack(old(balloc.State()), (rc, balloc.State()), Blocks(g, g.startLevel, tree))
    {
      hide Tiling, Blocks, NoSharing, Rep, FreeTable, GivesBack;
      FreesEachOnce(g, g.startLevel, tree, balloc.State());
      rc := PtFree(pt, g.startLevel, tree);
    }
  }

  /** The allocator's answer to a request for a level-`l` table. */
  ghost function TakeTable(g: Geometry, l: nat, pool: Pool): (u32, Pool)
    requires Known(g) && AtLevel(g, l)
  {
    hide TableBytes, PageSize, Entries, BlockSize, Pool.Take;
    TableSizes(g, l);
    pool.Take(TableBytes(g, l), PageSize(g))
  }

  lemma TableSizes(g: Geometry, l: nat)
    requires Known(g) && AtLevel(g, l)
    ensures 0 < TableBytes(g, l) <= PageSize(g) && TableBytes(g, l) == 8 * Entries(g, l) && PageSize(g) <= 0x1_0000
    ensures WORD % PageSize(g) == 0 && SafeSize(TableBytes(g, l), PageSize(g))
  {
    hide Entries, TableBytes, PageSize, BlockSize, MmuGeometry.Span;
    LevelSizes(g, l);
  }

  lemma RootPlace(g: Geometry, pool: Pool, addr: u32, pool': Pool)
    requires Known(g) && AtLevel(g, g.startLevel) && pool.Valid() && (addr, pool') == TakeTable(g, g.startLevel, pool)
    ensures addr == 0 ==> pool' == pool
    ensures addr != 0 ==> var t := EmptyTable(g, g.startLevel, addr);
      && WF(g, g.startLevel, t) && OwnBlock(g, g.startLevel, t) !in pool.live && pool'.Valid()
      && pool'.live == pool.live + {OwnBlock(g, g.startLevel, t)}
  {
    hide Entries, TableBytes, PageSize, BlockSize, MmuGeometry.Span, Tiling, Pool.Take;
    TableSizes(g, g.startLevel);
    pool.TakeSafe(TableBytes(g, g.startLevel), PageSize(g));
  }

  /** The allocation that `NewTable` describes. */
  lemma NewTablePlace(g: Geometry, l: nat, pool: Pool, addr: u32, pool': Pool)
    requires Known(g) && AtLevel(g, l) && l > g.startLevel && pool.Valid()
    requires (addr, pool') == TakeTable(g, l, pool)
    ensures NewTable(g, l, pool) == (if addr == 0 then None else Some(EmptyTable(g, l, addr)), pool')
  {
    hide Entries, TableBytes, PageSize, BlockSize, MmuGeometry.Span, Tiling, Pool.Take;
    LevelSizes(g, l);
  }

  lemma RootPath(g: Geometry, t: Table, v: nat)
    requires WF(g, g.startLevel, t)
    ensures HasPath(g, g.startLevel, t, v, g.startLevel) && TableAt(g, g.startLevel, t, v, g.startLevel) == t
  {
  }

  lemma EncLeaf(l: nat, pa: nat)
    ensures Enc(l, Leaf(pa)) == LeafDesc(l, pa)
  {
  }

  lemma StoredParts(g: Geometry, t: Table, pool: Pool, mem: Memory)
    requires Stored(g, t, pool, mem)
    ensures Known(g) && AtLevel(g, g.startLevel) && WF(g, g.startLevel, t) && pool.Valid() && Sound(g, t, pool)
    ensures Rep(g, g.startLevel, t, mem)
  {
  }

  /** The size test of map and unmap is the page-multiple test. */
  lemma SizeTest(g: Geometry, t: Table, pool: Pool, mem: Memory, size: nat)
    requires Stored(g, t, pool, mem) && size < WORD
    ensures Known(g) && WF(g, g.startLevel, t) && pool.Valid()
    ensures Aligned(size, PageSize(g)) <==> size % PageSize(g) == 0
  {
    hide PageSize, Aligned, BlockSize, TableBytes, Entries, MmuGeometry.Span;
    LevelSizes(g, g.startLevel);
    AlignedIsMultiple(size, PageSize(g));
  }

  lemma BlocksFromStep(g: Geometry, l: nat, t: Table, i: nat)
    requires WF(g, l, t) && i < |t.ents|
    ensures BlocksFrom(g, l, t, i) == EntryBlocks(g, l, t.ents[i]) + BlocksFrom(g, l, t, i + 1)
  {
  }

  lemma OwnOutside(g: Geometry, l: nat, t: Table, i: nat)
    requires WF(g, l, t) && NoSharing(g, l, t) && i < |t.ents|
    ensures OwnBlock(g, l, t) !in EntryBlocks(g, l, t.ents[i])
  {
  }

  lemma SubBlocks(g: Geometry, l: nat, e: Entry)
    requires EntryWF(g, l, e) && e.Sub?
    ensures EntryBlocks(g, l, e) == Blocks(g, l + 1, e.t)
  {
  }

  lemma NoLongerPath(g: Geometry, t: Table, v: nat, j: nat, k: nat)
    requires WF(g, g.startLevel, t) && HasPath(g, g.startLevel, t, v, j) && j < k <= MAX_LEVEL
    requires !HasPath(g, g.startLevel, t, v, j + 1)
    ensures !HasPath(g, g.startLevel, t, v, k)
  {
    hide HasPath, PlaceOk, Index;
    if HasPath(g, g.startLevel, t, v, k) {
      PathLevels(g, g.startLevel, t, v, j);
      ShorterPath(g, g.startLevel, t, v, k, j + 1);
    }
  }

  lemma PathLevels(g: Geometry, l: nat, t: Table, v: nat, k: nat)
    requires WF(g, l, t) && HasPath(g, l, t, v, k)
    ensures l <= k <= MAX_LEVEL
  {
  }

  lemma BackWalkTop(g: Geometry, t: Table, v: nat, pool: Pool)
    requires WF(g, g.startLevel, t) && HasPath(g, g.startLevel, t, v, g.startLevel)
    ensures BackWalk(g, g.startLevel, t, v, g.startLevel, pool) == Walked(t, pool, 0)
  {
  }

  lemma EncInvalid(l: nat)
    ensures Enc(l, Invalid) == INVALID_DESC
  {
  }
}
