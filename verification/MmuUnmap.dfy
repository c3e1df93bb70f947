/** What `mmu_unmap` does to a page-table tree and to the allocator: the descriptor of every
    piece is invalidated and tables that became empty are returned, bottom up. */
module MmuUnmap {
  import opened Bits
  import opened MmuGeometry
  import opened MmuTree
  import opened MmuMap
  import opened Balloc

  /** Entry `i` replaced by an invalid descriptor. */
  ghost function Drop(g: Geometry, l: nat, t: Table, i: nat): (t': Table)
    requires WF(g, l, t) && i < |t.ents|
    ensures WF(g, l, t') && t'.addr == t.addr
  {
    Table(t.addr, t.ents[i := Invalid])
  }

  datatype Walked = Walked(t: Table, pool: Pool, rc: int)

  /** The backwards walk from the level-`k` table on the path of `v`: empty tables are unlinked
      and freed; it stops where a table is not empty or a free fails. */
  ghost function BackWalk(g: Geometry, l: nat, t: Table, v: nat, k: nat, pool: Pool): (r: Walked)
    requires WF(g, l, t) && HasPath(g, l, t, v, k)
    ensures WF(g, l, r.t) && r.t.addr == t.addr
    decreases k - l
  {
    hide PlaceOk, Index;
    var i := Index(g, l, v);
    if l == k then Walked(t, pool, 0)
    else
      var r := BackWalk(g, l + 1, t.ents[i].t, v, k, pool);
      if r.rc != 0 || NonEmpty(r.t) then Walked(PutSub(g, l, t, i, r.t), r.pool, r.rc)
      else
        var (rc, pool') := r.pool.Give(OwnBlock(g, l + 1, r.t));
        Walked(Drop(g, l, t, i), pool', rc)
  }

  /** The tree when every free succeeds, and how many frees that takes. */
  ghost function Prune(g: Geometry, l: nat, t: Table, v: nat, k: nat): (t': Table)
    requires WF(g, l, t) && HasPath(g, l, t, v, k)
    ensures WF(g, l, t') && t'.addr == t.addr
    decreases k - l
  {
    hide PlaceOk, Index;
    var i := Index(g, l, v);
    if l == k then t
    else
      var s := Prune(g, l + 1, t.ents[i].t, v, k);
      if NonEmpty(s) then PutSub(g, l, t, i, s) else Drop(g, l, t, i)
  }

  ghost function Frees(g: Geometry, l: nat, t: Table, v: nat, k: nat): nat
    requires WF(g, l, t) && HasPath(g, l, t, v, k)
    decreases k - l
  {
    if l == k then 0
    else
      var s := t.ents[Index(g, l, v)].t;
      Frees(g, l + 1, s, v, k) + (if NonEmpty(Prune(g, l + 1, s, v, k)) then 0 else 1)
  }

  datatype UnmapRc = Removed | Missing | FreeFailed
  datatype UnmapResult = UnmapResult(rc: UnmapRc, t: Table, pool: Pool)

  /** One piece: the path and a valid descriptor must be there. */
  ghost function UnmapPiece(g: Geometry, t: Table, v: nat, k: nat, pool: Pool): (r: UnmapResult)
    requires WF(g, g.startLevel, t) && AtLevel(g, k)
    ensures WF(g, g.startLevel, r.t) && r.t.addr == t.addr
  {
    hide PlaceOk, Index;
    if !HasPath(g, g.startLevel, t, v, k) || EntryAt(g, g.startLevel, t, v, k).Invalid? then
      UnmapResult(Missing, t, pool)
    else
      var u := SetEntry(g, g.startLevel, t, v, k, Invalid);
      PathAfterSet(g, g.startLevel, t, v, k, Invalid, k);
      var r := BackWalk(g, g.startLevel, u, v, k, pool);
      UnmapResult(if r.rc == 0 then Removed else FreeFailed, r.t, r.pool)
  }

  ghost function UnmapAll(g: Geometry, t: Table, v: nat, sz: nat, pool: Pool): (r: UnmapResult)
    requires Known(g) && WF(g, g.startLevel, t) && WholePages(g, v, sz)
    ensures WF(g, g.startLevel, r.t) && r.t.addr == t.addr
    decreases sz
  {
    hide BlockSize, PageSize, Aligned, PlaceOk;
    var k := ChunkLevel(g, g.startLevel, v, sz);
    ChunkFits(g, v, sz);
    var b := BlockSize(g, k);
    var r := UnmapPiece(g, t, v, k, pool);
    if r.rc != Removed || sz == b then r else UnmapAll(g, r.t, v + b, sz - b, r.pool)
  }

  /** An empty table maps nothing, so unlinking it changes no lookup. */
  lemma {:induction false} PruneLookup(g: Geometry, l: nat, t: Table, v: nat, k: nat, x: nat)
    requires WF(g, l, t) && HasPath(g, l, t, v, k)
    ensures Lookup(g, l, Prune(g, l, t, v, k), x) == Lookup(g, l, t, x)
    decreases k - l
  {
    hide PlaceOk, Index;
    if l < k {
      var s := t.ents[Index(g, l, v)].t;
      PruneLookup(g, l + 1, s, v, k, x);
      var s' := Prune(g, l + 1, s, v, k);
      if !NonEmpty(s') {
        assert s'.ents[Index(g, l + 1, x)].Invalid?;
      }
    }
  }

  /** Pruned except for the tables on the path of `v` down to level `k`. */
  ghost predicate PrunedOffPath(g: Geometry, l: nat, t: Table, v: nat, k: nat)
    requires WF(g, l, t) && HasPath(g, l, t, v, k)
    decreases t
  {
    && (forall i | 0 <= i < |t.ents| && t.ents[i].Sub? && (l == k || i != Index(g, l, v)) ::
          NonEmpty(t.ents[i].t) && Pruned(t.ents[i].t))
    && (l < k ==> PrunedOffPath(g, l + 1, t.ents[Index(g, l, v)].t, v, k))
  }

  lemma {:induction false} PruneIsPruned(g: Geometry, l: nat, t: Table, v: nat, k: nat)
    requires WF(g, l, t) && HasPath(g, l, t, v, k) && PrunedOffPath(g, l, t, v, k)
    ensures Pruned(Prune(g, l, t, v, k))
    decreases k - l
  {
    hide PlaceOk, Index;
    if l < k {
      PruneIsPruned(g, l + 1, t.ents[Index(g, l, v)].t, v, k);
    }
  }

  lemma {:induction false} ClearedOffPath(g: Geometry, l: nat, t: Table, v: nat, k: nat)
    requires WF(g, l, t) && HasPath(g, l, t, v, k) && Pruned(t)
    ensures var u := SetEntry(g, l, t, v, k, Invalid); HasPath(g, l, u, v, k) && PrunedOffPath(g, l, u, v, k)
    decreases t
  {
    hide PlaceOk, Index;
    if l < k {
      ClearedOffPath(g, l + 1, t.ents[Index(g, l, v)].t, v, k);
    }
  }

  /** Clearing an entry the smaller tree does not have leaves an extension of it. */
  lemma {:induction false} ClearedExtends(g: Geometry, l: nat, t0: Table, t: Table, v: nat, k: nat)
    requires WF(g, l, t0) && WF(g, l, t) && HasPath(g, l, t, v, k) && Extends(t0, t) && Pruned(t0)
    requires EntryAt(g, l, t, v, k).Leaf? && Lookup(g, l, t0, v).None?
    ensures Extends(t0, SetEntry(g, l, t, v, k, Invalid))
    decreases t
  {
    hide PlaceOk, Index;
    var i, u := Index(g, l, v), SetEntry(g, l, t, v, k, Invalid);
    if l < k && t0.ents[i].Sub? {
      ClearedExtends(g, l + 1, t0.ents[i].t, t.ents[i].t, v, k);
    }
    ExtendsWithout(t0, t, u, i);
  }

  lemma ExtendsWithout(t0: Table, t: Table, u: Table, i: nat)
    requires Extends(t0, t) && i < |t.ents| && |u.ents| == |t.ents| && u.addr == t.addr
             && u.ents == t.ents[i := u.ents[i]]
    requires !t0.ents[i].Leaf? && (t0.ents[i].Sub? ==> u.ents[i].Sub? && Extends(t0.ents[i].t, u.ents[i].t))
    ensures Extends(t0, u)
  {
    forall j | 0 <= j < |t0.ents|
      ensures t0.ents[j].Leaf? ==> u.ents[j] == t0.ents[j]
      ensures t0.ents[j].Sub? ==> u.ents[j].Sub? && Extends(t0.ents[j].t, u.ents[j].t)
    {
      assert j != i ==> u.ents[j] == t.ents[j];
    }
  }

  /** A pruned smaller tree has no table where the larger one has an empty one. */
  lemma {:induction false} PruneExtends(g: Geometry, l: nat, t0: Table, t: Table, v: nat, k: nat)
    requires WF(g, l, t) && HasPath(g, l, t, v, k) && Extends(t0, t) && Pruned(t0)
    ensures Extends(t0, Prune(g, l, t, v, k))
    decreases k - l
  {
    hide PlaceOk, Index;
    if l < k {
      var i := Index(g, l, v);
      if t0.ents[i].Sub? {
        PruneExtends(g, l + 1, t0.ents[i].t, t.ents[i].t, v, k);
        ExtendsNonEmpty(t0.ents[i].t, Prune(g, l + 1, t.ents[i].t, v, k));
      }
      ExtendsWithout(t0, t, Prune(g, l, t, v, k), i);
    }
  }

  lemma ExtendsNonEmpty(t: Table, u: Table)
    requires Extends(t, u) && NonEmpty(t)
    ensures NonEmpty(u)
  {
    var i :| 0 <= i < |t.ents| && !t.ents[i].Invalid?;
    assert !u.ents[i].Invalid?;
  }

  /** Shrinking the child on the path shrinks the table by the same blocks. */
  lemma ShrinkChild(g: Geometry, l: nat, t: Table, i: nat, s: Table)
    requires WF(g, l, t) && NoSharing(g, l, t) && i < |t.ents| && t.ents[i].Sub?
    requires WF(g, l + 1, s) && NoSharing(g, l + 1, s) && Blocks(g, l + 1, s) <= Blocks(g, l + 1, t.ents[i].t)
    ensures var t', gone := PutSub(g, l, t, i, s), Blocks(g, l + 1, t.ents[i].t) - Blocks(g, l + 1, s);
            NoSharing(g, l, t') && Blocks(g, l, t') == Blocks(g, l, t) - gone
    ensures Blocks(g, l + 1, t.ents[i].t) <= Blocks(g, l, t)
  {
    hide WF, NoSharing, Blocks;
    EntryBlocksWithin(g, l, t, i);
    LiftBlocks(g, l, t, i, s, Blocks(g, l + 1, t.ents[i].t) - Blocks(g, l + 1, s), {});
  }

  lemma DropChild(g: Geometry, l: nat, t: Table, i: nat)
    requires WF(g, l, t) && NoSharing(g, l, t) && i < |t.ents| && t.ents[i].Sub?
    ensures var t' := Drop(g, l, t, i);
            NoSharing(g, l, t') && Blocks(g, l, t') == Blocks(g, l, t) - Blocks(g, l + 1, t.ents[i].t)
    ensures Blocks(g, l + 1, t.ents[i].t) <= Blocks(g, l, t)
  {
    hide NoSharing, Blocks;
    EntryBlocksWithin(g, l, t, i);
    ReplaceEntryBlocks(g, l, t, i, Invalid);
  }

  lemma EmptyOwnsOne(g: Geometry, l: nat, t: Table)
    requires WF(g, l, t) && !NonEmpty(t)
    ensures Blocks(g, l, t) == {OwnBlock(g, l, t)}
  {
  }

  /** Blocks missing after one more block of `part` may have gone. */
  lemma Freed<T>(live: set<T>, mid: set<T>, last: set<T>, whole: set<T>, part: set<T>, own: T)
    requires part <= whole <= live && mid <= live && own in part && live - mid <= part - {own}
    requires last == mid || last == mid - {own}
    ensures last <= live && live - last <= whole - (whole - part)
    ensures live - mid == part - {own} && last == mid - {own} ==> live - last == whole - (whole - part)
  {
    assert whole - (whole - part) == part;
    assert live - last <= (live - mid) + {own};
  }

  /** Freed blocks are exactly the blocks of the tables unlinked; all else stays live. */
  lemma {:induction false} BackWalkBlocks(g: Geometry, l: nat, t: Table, v: nat, k: nat, pool: Pool)
    requires WF(g, l, t) && HasPath(g, l, t, v, k) && NoSharing(g, l, t) && Blocks(g, l, t) <= pool.live && pool.Valid()
    ensures var r := BackWalk(g, l, t, v, k, pool);
            && r.pool.Valid() && NoSharing(g, l, r.t) && Blocks(g, l, r.t) <= Blocks(g, l, t)
            && r.pool.live <= pool.live && pool.live - r.pool.live <= Blocks(g, l, t) - Blocks(g, l, r.t)
            && (r.rc == 0 ==> pool.live - r.pool.live == Blocks(g, l, t) - Blocks(g, l, r.t))
    decreases k - l
  {
    hide PlaceOk, Index, NoSharing, Blocks, Tiling;
    if l < k {
      var i := Index(g, l, v);
      var s := t.ents[i].t;
      EntryBlocksWithin(g, l, t, i);
      BackWalkBlocks(g, l + 1, s, v, k, pool);
      var r := BackWalk(g, l + 1, s, v, k, pool);
      if r.rc != 0 || NonEmpty(r.t) {
        ShrinkChild(g, l, t, i, r.t);
      } else {
        DropChild(g, l, t, i);
        EmptyOwnsOne(g, l + 1, r.t);
        r.pool.GiveSafe(OwnBlock(g, l + 1, r.t));
        var (rc, last) := r.pool.Give(OwnBlock(g, l + 1, r.t));
        Freed(pool.live, r.pool.live, last.live, Blocks(g, l, t), Blocks(g, l + 1, s), OwnBlock(g, l + 1, r.t));
      }
    }
  }

  /** With enough unused slots no free fails. */
  lemma {:induction false} BackWalkSucceeds(g: Geometry, l: nat, t: Table, v: nat, k: nat, pool: Pool)
    requires WF(g, l, t) && HasPath(g, l, t, v, k) && NoSharing(g, l, t) && Blocks(g, l, t) <= pool.live && pool.Valid()
    ensures var r := BackWalk(g, l, t, v, k, pool);
            && (r.rc == 0 ==> r.t == Prune(g, l, t, v, k))
            && (Unused(pool.fb) >= Frees(g, l, t, v, k) ==>
                  r.rc == 0 && Unused(r.pool.fb) + Frees(g, l, t, v, k) >= Unused(pool.fb))
    decreases k - l
  {
    hide PlaceOk, Index, NoSharing, Blocks, Tiling, Unused;
    if l < k {
      var i := Index(g, l, v);
      var s := t.ents[i].t;
      EntryBlocksWithin(g, l, t, i);
      BackWalkSucceeds(g, l + 1, s, v, k, pool);
      BackWalkBlocks(g, l + 1, s, v, k, pool);
      var r := BackWalk(g, l + 1, s, v, k, pool);
      if r.rc == 0 && !NonEmpty(r.t) && Unused(pool.fb) >= Frees(g, l, t, v, k) {
        EmptyOwnsOne(g, l + 1, r.t);
        GiveUsesOneSlot(r.pool, OwnBlock(g, l + 1, r.t));
      }
    }
  }

  lemma GiveUsesOneSlot(pool: Pool, b: Block)
    requires pool.Valid() && b in pool.live && Unused(pool.fb) > 0
    ensures pool.Give(b).0 == 0 && Unused(pool.Give(b).1.fb) >= Unused(pool.fb) - 1
  {
    hide Tiling, Free, Unused;
    LiveBounds(pool.fb, pool.live, pool.lo, pool.hi, b);
    FreeUsesOneSlot(pool.fb, b.addr, b.size);
  }

  lemma {:induction false} PruneBlocks(g: Geometry, l: nat, t: Table, v: nat, k: nat)
    requires WF(g, l, t) && HasPath(g, l, t, v, k) && NoSharing(g, l, t)
    ensures var t' := Prune(g, l, t, v, k);
            && NoSharing(g, l, t') && Blocks(g, l, t') <= Blocks(g, l, t)
            && |Blocks(g, l, t) - Blocks(g, l, t')| == Frees(g, l, t, v, k)
    decreases k - l
  {
    hide PlaceOk, Index, NoSharing, Blocks;
    if l == k {
      assert Blocks(g, l, t) - Blocks(g, l, t) == {};
    } else {
      var i := Index(g, l, v);
      var s := t.ents[i].t;
      EntryBlocksWithin(g, l, t, i);
      PruneBlocks(g, l + 1, s, v, k);
      var s', t' := Prune(g, l + 1, s, v, k), Prune(g, l, t, v, k);
      var gone := Blocks(g, l + 1, s) - Blocks(g, l + 1, s');
      if NonEmpty(s') {
        ShrinkChild(g, l, t, i, s');
        assert Blocks(g, l, t) - Blocks(g, l, t') == gone;
      } else {
        DropChild(g, l, t, i);
        EmptyOwnsOne(g, l + 1, s');
        assert Blocks(g, l, t) - Blocks(g, l, t') == gone + {OwnBlock(g, l + 1, s')};
      }
    }
  }

  /** A tree's blocks are among those of any extension. */
  lemma {:induction false} ExtendsBlocks(g: Geometry, l: nat, t: Table, u: Table)
    requires WF(g, l, t) && WF(g, l, u) && Extends(t, u)
    ensures Blocks(g, l, t) <= Blocks(g, l, u)
    decreases t
  {
    hide PlaceOk, Blocks;
    forall b | b in Blocks(g, l, t)
      ensures b in Blocks(g, l, u)
    {
      BlocksMembers(g, l, t, b);
      BlocksMembers(g, l, u, b);
      if i: int :| 0 <= i < |t.ents| && b in EntryBlocks(g, l, t.ents[i]) {
        ExtendsBlocks(g, l + 1, t.ents[i].t, u.ents[i].t);
        assert b in EntryBlocks(g, l, u.ents[i]);
      }
    }
  }
}
