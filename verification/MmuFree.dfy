/** `pt_free`: a whole subtree is given back, children first. */
module MmuFree {
  import opened MmuGeometry
  import opened MmuTree
  import opened MmuUnmap
  import opened Balloc

  /** Return code and allocator after freeing a table with everything below it, and after
      freeing what hangs below entries `i` and up; the first failure ends it. */
  ghost function FreeTable(g: Geometry, l: nat, t: Table, pool: Pool): (r: (int, Pool))
    requires WF(g, l, t)
    decreases t, 1
  {
    var r := FreeEntries(g, l, t, 0, pool);
    if r.0 != 0 then r else r.1.Give(OwnBlock(g, l, t))
  }

  ghost function FreeEntries(g: Geometry, l: nat, t: Table, i: nat, pool: Pool): (r: (int, Pool))
    requires WF(g, l, t) && i <= |t.ents|
    decreases t, 0, |t.ents| - i
  {
    if i == |t.ents| then (0, pool)
    else if !t.ents[i].Sub? then FreeEntries(g, l, t, i + 1, pool)
    else
      var r := FreeTable(g, l + 1, t.ents[i].t, pool);
      if r.0 != 0 then r else FreeEntries(g, l, t, i + 1, r.1)
  }

  /** Blocks below entries `i` and up. */
  ghost function BlocksFrom(g: Geometry, l: nat, t: Table, i: nat): set<Block>
    requires WF(g, l, t) && i <= |t.ents|
    decreases |t.ents| - i
  {
    if i == |t.ents| then {} else EntryBlocks(g, l, t.ents[i]) + BlocksFrom(g, l, t, i + 1)
  }

  lemma {:induction false} BlocksFromMembers(g: Geometry, l: nat, t: Table, i: nat, b: Block)
    requires WF(g, l, t) && i <= |t.ents|
    ensures b in BlocksFrom(g, l, t, i) <==> exists j :: i <= j < |t.ents| && b in EntryBlocks(g, l, t.ents[j])
    decreases |t.ents| - i
  {
    hide EntryBlocks, PlaceOk;
    if i < |t.ents| {
      BlocksFromMembers(g, l, t, i + 1, b);
    }
  }

  lemma EntryApartFromRest(g: Geometry, l: nat, t: Table, i: nat)
    requires WF(g, l, t) && NoSharing(g, l, t) && i < |t.ents|
    ensures EntryBlocks(g, l, t.ents[i]) !! BlocksFrom(g, l, t, i + 1)
    ensures OwnBlock(g, l, t) !in BlocksFrom(g, l, t, i)
  {
    hide EntryBlocks, PlaceOk, BlocksFrom;
    var next := i + 1;
    forall b | b in EntryBlocks(g, l, t.ents[i])
      ensures b !in BlocksFrom(g, l, t, next)
    {
      BlocksFromMembers(g, l, t, next, b);
      assert forall j | next <= j < |t.ents| :: EntryBlocks(g, l, t.ents[i]) !! EntryBlocks(g, l, t.ents[j]);
    }
    BlocksFromMembers(g, l, t, i, OwnBlock(g, l, t));
  }

  lemma AllBlocks(g: Geometry, l: nat, t: Table)
    requires WF(g, l, t)
    ensures Blocks(g, l, t) == {OwnBlock(g, l, t)} + BlocksFrom(g, l, t, 0)
  {
    hide EntryBlocks, PlaceOk, BlocksFrom, Blocks;
    forall b
      ensures b in Blocks(g, l, t) <==> b in {OwnBlock(g, l, t)} + BlocksFrom(g, l, t, 0)
    {
      BlocksMembers(g, l, t, b);
      BlocksFromMembers(g, l, t, 0, b);
    }
  }

  /** Nothing but `part` is given back, all of it on success, and success is certain with as
      many unused slots. */
  ghost predicate GivesBack(pool: Pool, r: (int, Pool), part: set<Block>)
  {
    && r.1.Valid() && r.1.live <= pool.live && pool.live - r.1.live <= part
    && (r.0 == 0 ==> pool.live - r.1.live == part)
    && (Unused(pool.fb) >= |part| ==> r.0 == 0 && Unused(r.1.fb) + |part| >= Unused(pool.fb))
  }

  lemma GiveBackBoth(pool: Pool, mid: (int, Pool), last: (int, Pool), a: set<Block>, b: set<Block>)
    requires GivesBack(pool, mid, a) && mid.0 == 0 && GivesBack(mid.1, last, b) && a !! b
    ensures GivesBack(pool, last, a + b)
  {
    hide Tiling, Unused;
    assert |a + b| == |a| + |b|;
    assert pool.live - last.1.live == (pool.live - mid.1.live) + (mid.1.live - last.1.live);
  }

  lemma GiveBackStopped(pool: Pool, mid: (int, Pool), a: set<Block>, b: set<Block>)
    requires GivesBack(pool, mid, a) && mid.0 != 0 && a !! b
    ensures GivesBack(pool, mid, a + b)
  {
    hide Tiling, Unused;
    assert |a + b| == |a| + |b|;
  }

  lemma GiveBackOne(pool: Pool, b: Block)
    requires pool.Valid() && b in pool.live
    ensures GivesBack(pool, pool.Give(b), {b})
  {
    hide Tiling, Unused;
    pool.GiveSafe(b);
    if Unused(pool.fb) > 0 {
      GiveUsesOneSlot(pool, b);
    }
  }

  lemma GiveBackNone(pool: Pool)
    requires pool.Valid()
    ensures GivesBack(pool, (0, pool), {})
  {
  }

  /** Each table of the tree is given back exactly once, and nothing else is. */
  lemma {:induction false} FreesEachOnce(g: Geometry, l: nat, t: Table, pool: Pool)
    requires WF(g, l, t) && NoSharing(g, l, t) && Blocks(g, l, t) <= pool.live && pool.Valid()
    ensures GivesBack(pool, FreeTable(g, l, t, pool), Blocks(g, l, t))
    decreases t, 1
  {
    hide EntryBlocks, PlaceOk, BlocksFrom, Blocks, NoSharing, Tiling, Unused, OwnBlock, WF;
    AllBlocks(g, l, t);
    FreesEntriesOnce(g, l, t, 0, pool);
    OwnApart(g, l, t);
    var r := FreeEntries(g, l, t, 0, pool);
    if r.0 == 0 {
      GiveBackOne(r.1, OwnBlock(g, l, t));
      GiveBackBoth(pool, r, r.1.Give(OwnBlock(g, l, t)), BlocksFrom(g, l, t, 0), {OwnBlock(g, l, t)});
    } else {
      GiveBackStopped(pool, r, BlocksFrom(g, l, t, 0), {OwnBlock(g, l, t)});
    }
    assert Blocks(g, l, t) == BlocksFrom(g, l, t, 0) + {OwnBlock(g, l, t)};
  }

  lemma OwnApart(g: Geometry, l: nat, t: Table)
    requires WF(g, l, t) && NoSharing(g, l, t)
    ensures OwnBlock(g, l, t) !in BlocksFrom(g, l, t, 0)
  {
    EntryApartFromRest(g, l, t, 0);
  }

  lemma {:induction false} FreesEntriesOnce(g: Geometry, l: nat, t: Table, i: nat, pool: Pool)
    requires WF(g, l, t) && NoSharing(g, l, t) && i <= |t.ents| && BlocksFrom(g, l, t, i) <= pool.live && pool.Valid()
    ensures GivesBack(pool, FreeEntries(g, l, t, i, pool), BlocksFrom(g, l, t, i))
    decreases t, 0, |t.ents| - i
  {
    hide PlaceOk, Blocks, NoSharing, Tiling, Unused, GivesBack;
    if i == |t.ents| {
      GiveBackNone(pool);
    } else if !t.ents[i].Sub? {
      FreesEntriesOnce(g, l, t, i + 1, pool);
      assert BlocksFrom(g, l, t, i) == BlocksFrom(g, l, t, i + 1);
    } else {
      EntryApartFromRest(g, l, t, i);
      EntryBlocksWithin(g, l, t, i);
      FreesEachOnce(g, l + 1, t.ents[i].t, pool);
      var r := FreeTable(g, l + 1, t.ents[i].t, pool);
      if r.0 == 0 {
        StillLive(pool, r, EntryBlocks(g, l, t.ents[i]), BlocksFrom(g, l, t, i + 1));
        FreesEntriesOnce(g, l, t, i + 1, r.1);
        GiveBackBoth(pool, r, FreeEntries(g, l, t, i + 1, r.1),
                     EntryBlocks(g, l, t.ents[i]), BlocksFrom(g, l, t, i + 1));
      } else {
        GiveBackStopped(pool, r, EntryBlocks(g, l, t.ents[i]), BlocksFrom(g, l, t, i + 1));
      }
    }
  }

  lemma StillLive(pool: Pool, r: (int, Pool), a: set<Block>, b: set<Block>)
    requires GivesBack(pool, r, a) && a !! b && b <= pool.live
    ensures b <= r.1.live && r.1.Valid()
  {
    hide Tiling, Unused;
    forall x | x in b
      ensures x in r.1.live
    {
      assert x !in pool.live - r.1.live;
    }
  }

  /** An empty table is just its own block. */
  lemma FreeEmpty(g: Geometry, l: nat, t: Table, pool: Pool)
    requires WF(g, l, t) && !NonEmpty(t)
    ensures FreeTable(g, l, t, pool) == pool.Give(OwnBlock(g, l, t))
  {
    FreeEmptyEntries(g, l, t, 0, pool);
  }

  lemma {:induction false} FreeEmptyEntries(g: Geometry, l: nat, t: Table, i: nat, pool: Pool)
    requires WF(g, l, t) && !NonEmpty(t) && i <= |t.ents|
    ensures FreeEntries(g, l, t, i, pool) == (0, pool)
    decreases |t.ents| - i
  {
    hide PlaceOk, Entries, OwnBlock;
    if i < |t.ents| {
      assert t.ents[i].Invalid?;
      FreeEmptyEntries(g, l, t, i + 1, pool);
    }
  }
}
