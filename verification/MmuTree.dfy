/** Page tables as trees: lookup, the one primitive change (`SetEntry`, one descriptor
    written), and the set of memory blocks a tree occupies. */
module MmuTree {
  import opened Words
  import opened MmuGeometry
  import Balloc

  const MAX_PA := 0x1_0000_0000_0000

  /** A descriptor: invalid, a block or page at `pa`, or a next-level table. */
  datatype Entry = Invalid | Leaf(pa: nat) | Sub(t: Table)

  /** A table and the memory address it lives at. */
  datatype Table = Table(addr: u32, ents: seq<Entry>)

  /** A page-aligned place below 2^32 for a level-`l` table. */
  predicate PlaceOk(g: Geometry, l: nat, addr: int)
  {
    0 < addr && addr + TableBytes(g, l) <= WORD && addr % PageSize(g) == 0
  }

  predicate PaOk(pa: nat) { pa % 4096 == 0 && pa < MAX_PA }

  ghost predicate WF(g: Geometry, l: nat, t: Table)
    decreases t
  {
    && AtLevel(g, l) && |t.ents| == Entries(g, l) && PlaceOk(g, l, t.addr)
    && forall i | 0 <= i < |t.ents| ::
         && (t.ents[i].Leaf? ==> PaOk(t.ents[i].pa))
         && (t.ents[i].Sub? ==> l < MAX_LEVEL && WF(g, l + 1, t.ents[i].t))
  }

  ghost predicate EntryWF(g: Geometry, l: nat, e: Entry)
  {
    (e.Leaf? ==> PaOk(e.pa)) && (e.Sub? ==> l < MAX_LEVEL && WF(g, l + 1, e.t))
  }

  /** What a walk finds: the level it stopped at and the output address there. */
  datatype Hit = Hit(level: nat, pa: nat)

  ghost function Lookup(g: Geometry, l: nat, t: Table, v: nat): Option<Hit>
    requires WF(g, l, t)
    decreases t
  {
    match t.ents[Index(g, l, v)]
    case Invalid => None
    case Leaf(pa) => Some(Hit(l, pa))
    case Sub(s) => Lookup(g, l + 1, s, v)
  }

  ghost function LookupEntry(g: Geometry, l: nat, e: Entry, v: nat): Option<Hit>
    requires EntryWF(g, l, e)
  {
    match e
    case Invalid => None
    case Leaf(pa) => Some(Hit(l, pa))
    case Sub(s) => Lookup(g, l + 1, s, v)
  }

  /** Tables exist along the path of `v` down to level `k`. */
  ghost predicate HasPath(g: Geometry, l: nat, t: Table, v: nat, k: nat)
    requires WF(g, l, t)
    decreases t
  {
    l <= k <= MAX_LEVEL &&
    (l < k ==> t.ents[Index(g, l, v)].Sub? && HasPath(g, l + 1, t.ents[Index(g, l, v)].t, v, k))
  }

  ghost function TableAt(g: Geometry, l: nat, t: Table, v: nat, k: nat): (s: Table)
    requires WF(g, l, t) && HasPath(g, l, t, v, k)
    ensures WF(g, k, s)
    decreases t
  {
    if l == k then t else TableAt(g, l + 1, t.ents[Index(g, l, v)].t, v, k)
  }

  ghost function EntryAt(g: Geometry, l: nat, t: Table, v: nat, k: nat): (e: Entry)
    requires WF(g, l, t) && HasPath(g, l, t, v, k)
    ensures EntryWF(g, k, e)
  {
    TableAt(g, l, t, v, k).ents[Index(g, k, v)]
  }

  /** Entry `i` replaced by a table. */
  ghost function PutSub(g: Geometry, l: nat, t: Table, i: nat, s: Table): (t': Table)
    requires WF(g, l, t) && i < |t.ents| && l < MAX_LEVEL && WF(g, l + 1, s)
    ensures WF(g, l, t')
  {
    Table(t.addr, t.ents[i := Sub(s)])
  }

  /** One descriptor written: the one for `v` in its level-`k` table. */
  ghost function SetEntry(g: Geometry, l: nat, t: Table, v: nat, k: nat, e: Entry): (t': Table)
    requires WF(g, l, t) && HasPath(g, l, t, v, k) && EntryWF(g, k, e)
    ensures WF(g, l, t') && t'.addr == t.addr
    decreases t
  {
    var i := Index(g, l, v);
    if l == k then Table(t.addr, t.ents[i := e])
    else PutSub(g, l, t, i, SetEntry(g, l + 1, t.ents[i].t, v, k, e))
  }

  /** Lookups after a write: addresses on the same path see the new entry, all others what
      they saw before. */
  lemma {:induction false} LookupSet(g: Geometry, l: nat, t: Table, v: nat, k: nat, e: Entry, x: nat)
    requires WF(g, l, t) && HasPath(g, l, t, v, k) && EntryWF(g, k, e)
    ensures Lookup(g, l, SetEntry(g, l, t, v, k, e), x) ==
            if SamePath(g, l, k, v, x) then LookupEntry(g, k, e, x) else Lookup(g, l, t, x)
    decreases t
  {
    if l < k {
      LookupSet(g, l + 1, t.ents[Index(g, l, v)].t, v, k, e, x);
    }
  }

  /** After the write the path is still there and holds the new entry. */
  lemma {:induction false} PathAfterSet(g: Geometry, l: nat, t: Table, v: nat, k: nat, e: Entry, j: nat)
    requires WF(g, l, t) && HasPath(g, l, t, v, k) && EntryWF(g, k, e) && l <= j <= k
    requires HasPath(g, l, t, v, j) && HasPath(g, j, TableAt(g, l, t, v, j), v, k)
    ensures HasPath(g, l, SetEntry(g, l, t, v, k, e), v, j)
    ensures TableAt(g, l, SetEntry(g, l, t, v, k, e), v, j) == SetEntry(g, j, TableAt(g, l, t, v, j), v, k, e)
    decreases t
  {
    if l < j {
      PathAfterSet(g, l + 1, t.ents[Index(g, l, v)].t, v, k, e, j);
    }
  }

  lemma {:induction false} ShorterPath(g: Geometry, l: nat, t: Table, v: nat, k: nat, j: nat)
    requires WF(g, l, t) && HasPath(g, l, t, v, k) && l <= j <= k
    ensures HasPath(g, l, t, v, j) && HasPath(g, j, TableAt(g, l, t, v, j), v, k)
    ensures TableAt(g, j, TableAt(g, l, t, v, j), v, k) == TableAt(g, l, t, v, k)
    decreases t
  {
    if l < j {
      ShorterPath(g, l + 1, t.ents[Index(g, l, v)].t, v, k, j);
    }
  }

  /** Following a table entry extends the path by one level. */
  lemma {:induction false} LongerPath(g: Geometry, l: nat, t: Table, v: nat, k: nat)
    requires WF(g, l, t) && HasPath(g, l, t, v, k) && k < MAX_LEVEL
    ensures HasPath(g, l, t, v, k + 1) <==> EntryAt(g, l, t, v, k).Sub?
    ensures EntryAt(g, l, t, v, k).Sub? ==> TableAt(g, l, t, v, k + 1) == EntryAt(g, l, t, v, k).t
    decreases t
  {
    if l < k {
      LongerPath(g, l + 1, t.ents[Index(g, l, v)].t, v, k);
    }
  }

  /** The memory blocks of a tree, one per table. */
  ghost function OwnBlock(g: Geometry, l: nat, t: Table): Balloc.Block
    requires WF(g, l, t)
  {
    Balloc.Block(t.addr, TableBytes(g, l))
  }

  ghost function Blocks(g: Geometry, l: nat, t: Table): set<Balloc.Block>
    requires WF(g, l, t)
    decreases t
  {
    var next := l + 1;
    {OwnBlock(g, l, t)} +
    set i, b | 0 <= i < |t.ents| && t.ents[i].Sub? && b in Blocks(g, next, t.ents[i].t) :: b
  }

  ghost function EntryBlocks(g: Geometry, l: nat, e: Entry): set<Balloc.Block>
    requires EntryWF(g, l, e)
  {
    if e.Sub? then Blocks(g, l + 1, e.t) else {}
  }

  /** A block of a tree is its root's or belongs to one of its entries. */
  lemma BlocksMembers(g: Geometry, l: nat, t: Table, b: Balloc.Block)
    requires WF(g, l, t)
    ensures b in Blocks(g, l, t) <==>
      b == OwnBlock(g, l, t) || exists i :: 0 <= i < |t.ents| && b in EntryBlocks(g, l, t.ents[i])
  {
  }

  /** No table is reachable twice. */
  ghost predicate NoSharing(g: Geometry, l: nat, t: Table)
    requires WF(g, l, t)
    decreases t
  {
    && (forall i | 0 <= i < |t.ents| :: OwnBlock(g, l, t) !in EntryBlocks(g, l, t.ents[i]))
    && (forall i, j | 0 <= i < j < |t.ents| :: EntryBlocks(g, l, t.ents[i]) !! EntryBlocks(g, l, t.ents[j]))
    && (forall i | 0 <= i < |t.ents| :: t.ents[i].Sub? ==> NoSharing(g, l + 1, t.ents[i].t))
  }

  lemma {:induction false} TableAtBlocks(g: Geometry, l: nat, t: Table, v: nat, k: nat)
    requires WF(g, l, t) && HasPath(g, l, t, v, k)
    ensures OwnBlock(g, k, TableAt(g, l, t, v, k)) in Blocks(g, l, t)
    ensures Blocks(g, k, TableAt(g, l, t, v, k)) <= Blocks(g, l, t)
    ensures EntryBlocks(g, k, EntryAt(g, l, t, v, k)) <= Blocks(g, l, t)
    ensures NoSharing(g, l, t) ==> NoSharing(g, k, TableAt(g, l, t, v, k))
    decreases t
  {
    if l < k {
      var e := t.ents[Index(g, l, v)];
      TableAtBlocks(g, l + 1, e.t, v, k);
      assert Blocks(g, l + 1, e.t) == EntryBlocks(g, l, e);
    }
  }

  /** Replacing entry `i` of a table replaces that entry's blocks. */
  lemma ReplaceEntryBlocks(g: Geometry, l: nat, t: Table, i: nat, e: Entry)
    requires WF(g, l, t) && NoSharing(g, l, t) && i < |t.ents| && EntryWF(g, l, e)
    requires WF(g, l, Table(t.addr, t.ents[i := e]))
    requires EntryBlocks(g, l, e) !! Blocks(g, l, t) - EntryBlocks(g, l, t.ents[i])
    requires e.Sub? ==> NoSharing(g, l + 1, e.t)
    ensures var t' := Table(t.addr, t.ents[i := e]);
            && Blocks(g, l, t') == Blocks(g, l, t) - EntryBlocks(g, l, t.ents[i]) + EntryBlocks(g, l, e)
            && NoSharing(g, l, t')
  {
    var t' := Table(t.addr, t.ents[i := e]);
    assert OwnBlock(g, l, t') == OwnBlock(g, l, t);
    assert forall j | 0 <= j < |t.ents| :: EntryWF(g, l, t.ents[j]) && EntryWF(g, l, t'.ents[j]);
    hide WF, EntryWF, EntryBlocks, Entries, TableBytes, Blocks;
    forall j | 0 <= j < |t.ents| && j != i
      ensures EntryBlocks(g, l, t.ents[j]) !! EntryBlocks(g, l, t.ents[i])
      ensures EntryBlocks(g, l, t.ents[j]) <= Blocks(g, l, t) - EntryBlocks(g, l, t.ents[i])
    {
      if j < i {
        assert EntryBlocks(g, l, t.ents[j]) !! EntryBlocks(g, l, t.ents[i]);
      } else {
        assert EntryBlocks(g, l, t.ents[i]) !! EntryBlocks(g, l, t.ents[j]);
      }
    }
    forall b
      ensures b in Blocks(g, l, t') <==> b in Blocks(g, l, t) - EntryBlocks(g, l, t.ents[i]) + EntryBlocks(g, l, e)
    {
      BlocksMembers(g, l, t, b);
      BlocksMembers(g, l, t', b);
      if j: int :| 0 <= j < |t.ents| && b in EntryBlocks(g, l, t.ents[j]) {
        assert j != i ==> b in EntryBlocks(g, l, t'.ents[j]);
      }
      if b in EntryBlocks(g, l, e) {
        assert b in EntryBlocks(g, l, t'.ents[i]);
      }
    }
  }

  /** Exchanging blocks inside a child exchanges them in the table above. */
  lemma LiftBlocks(g: Geometry, l: nat, t: Table, i: nat, s': Table, gone: set<Balloc.Block>, added: set<Balloc.Block>)
    requires WF(g, l, t) && NoSharing(g, l, t) && i < |t.ents| && t.ents[i].Sub?
    requires WF(g, l + 1, s') && NoSharing(g, l + 1, s')
    requires Blocks(g, l + 1, s') == Blocks(g, l + 1, t.ents[i].t) - gone + added
    requires gone <= Blocks(g, l + 1, t.ents[i].t) && added !! Blocks(g, l, t) - gone
    ensures var t' := Table(t.addr, t.ents[i := Sub(s')]);
            WF(g, l, t') && NoSharing(g, l, t') && Blocks(g, l, t') == Blocks(g, l, t) - gone + added
  {
    EntryBlocksWithin(g, l, t, i);
    assert WF(g, l, Table(t.addr, t.ents[i := Sub(s')]));
    hide Blocks, NoSharing, WF;
    Exchange(Blocks(g, l, t), Blocks(g, l + 1, t.ents[i].t), gone, added);
    ReplaceEntryBlocks(g, l, t, i, Sub(s'));
  }

  /** The same for a write anywhere in the tree. */
  lemma {:induction false} SetEntryBlocks(g: Geometry, l: nat, t: Table, v: nat, k: nat, e: Entry)
    requires WF(g, l, t) && HasPath(g, l, t, v, k) && EntryWF(g, k, e) && NoSharing(g, l, t)
    requires EntryBlocks(g, k, e) !! Blocks(g, l, t) - EntryBlocks(g, k, EntryAt(g, l, t, v, k))
    requires e.Sub? ==> NoSharing(g, k + 1, e.t)
    ensures var t' := SetEntry(g, l, t, v, k, e);
            && Blocks(g, l, t') == Blocks(g, l, t) - EntryBlocks(g, k, EntryAt(g, l, t, v, k)) + EntryBlocks(g, k, e)
            && NoSharing(g, l, t')
    decreases t
  {
    hide Blocks, NoSharing;
    var i := Index(g, l, v);
    if l == k {
      ReplaceEntryBlocks(g, l, t, i, e);
    } else {
      var s := t.ents[i].t;
      TableAtBlocks(g, l + 1, s, v, k);
      EntryBlocksWithin(g, l, t, i);
      SetEntryBlocks(g, l + 1, s, v, k, e);
      LiftBlocks(g, l, t, i, SetEntry(g, l + 1, s, v, k, e), EntryBlocks(g, k, EntryAt(g, l, t, v, k)),
          EntryBlocks(g, k, e));
    }
  }

  lemma EntryBlocksWithin(g: Geometry, l: nat, t: Table, i: nat)
    requires WF(g, l, t) && i < |t.ents|
    ensures EntryWF(g, l, t.ents[i]) && EntryBlocks(g, l, t.ents[i]) <= Blocks(g, l, t)
    ensures t.ents[i].Sub? && NoSharing(g, l, t) ==> NoSharing(g, l + 1, t.ents[i].t)
  {
  }

  /** Exchanging `gone` for `added` inside a part is exchanging it inside the whole. */
  lemma Exchange<T>(whole: set<T>, part: set<T>, gone: set<T>, added: set<T>)
    requires gone <= part <= whole && added !! whole - gone
    ensures part - gone + added !! whole - part
    ensures whole - part + (part - gone + added) == whole - gone + added
  {
  }

  ghost predicate NonEmpty(t: Table)
  {
    exists i :: 0 <= i < |t.ents| && !t.ents[i].Invalid?
  }

  /** Every table below the root has a valid descriptor. */
  ghost predicate Pruned(t: Table)
    decreases t
  {
    forall i | 0 <= i < |t.ents| && t.ents[i].Sub? :: NonEmpty(t.ents[i].t) && Pruned(t.ents[i].t)
  }

  /** Addresses sharing the path of `v` down to an entry are looked up through it. */
  lemma {:induction false} LookupVia(g: Geometry, l: nat, t: Table, v: nat, k: nat, x: nat)
    requires WF(g, l, t) && HasPath(g, l, t, v, k) && SamePath(g, l, k, v, x)
    ensures Lookup(g, l, t, x) == LookupEntry(g, k, EntryAt(g, l, t, v, k), x)
    decreases t
  {
    if l < k {
      LookupVia(g, l + 1, t.ents[Index(g, l, v)].t, v, k, x);
    }
  }

  /** A walk that stops above level `k` is the only reason for a missing path, besides an
      invalid descriptor. */
  lemma {:induction false} NoPath(g: Geometry, l: nat, t: Table, v: nat, k: nat, x: nat)
    requires WF(g, l, t) && l <= k <= MAX_LEVEL && SamePath(g, l, k, v, x) && !HasPath(g, l, t, v, k)
    ensures Lookup(g, l, t, x) == Lookup(g, l, t, v)
    ensures Lookup(g, l, t, v).Some? ==> Lookup(g, l, t, v).value.level < k
    decreases t
  {
    var e := t.ents[Index(g, l, v)];
    if e.Sub? {
      NoPath(g, l + 1, e.t, v, k, x);
    }
  }

  lemma {:induction false} LookupLevel(g: Geometry, l: nat, t: Table, v: nat)
    requires WF(g, l, t)
    ensures Lookup(g, l, t, v).Some? ==> l <= Lookup(g, l, t, v).value.level <= MAX_LEVEL
    decreases t
  {
    var e := t.ents[Index(g, l, v)];
    if e.Sub? {
      LookupLevel(g, l + 1, e.t, v);
    }
  }

  /** A pruned, non-empty table maps some address of any range it may cover. */
  lemma {:induction false} NonEmptyMaps(g: Geometry, l: nat, t: Table, base: nat) returns (x: nat)
    requires Known(g) && WF(g, l, t) && Pruned(t) && NonEmpty(t) && base % Span(g, l) == 0
    ensures base <= x < base + Span(g, l) && Lookup(g, l, t, x).Some?
    decreases t
  {
    hide BlockSize, Index, PlaceOk, BlockStart;
    var i: nat :| 0 <= i < |t.ents| && !t.ents[i].Invalid?;
    var start := BlockStart(g, l, base, i);
    IndexOfBlock(g, l, base, i, start);
    if t.ents[i].Leaf? {
      x := start;
    } else {
      x := NonEmptyMaps(g, l + 1, t.ents[i].t, start);
      IndexOfBlock(g, l, base, i, x);
    }
  }

  /** `u` has everything `t` has, at the same addresses, and perhaps more. */
  ghost predicate Extends(t: Table, u: Table)
    decreases t
  {
    && u.addr == t.addr && |u.ents| == |t.ents|
    && forall i | 0 <= i < |t.ents| ::
         && (t.ents[i].Leaf? ==> u.ents[i] == t.ents[i])
         && (t.ents[i].Sub? ==> u.ents[i].Sub? && Extends(t.ents[i].t, u.ents[i].t))
  }

  lemma {:induction false} ExtendsSelf(t: Table)
    ensures Extends(t, t)
    decreases t
  {
    forall i | 0 <= i < |t.ents| && t.ents[i].Sub?
      ensures Extends(t.ents[i].t, t.ents[i].t)
    {
      ExtendsSelf(t.ents[i].t);
    }
  }

  lemma {:induction false} ExtendsTrans(t: Table, u: Table, w: Table)
    requires Extends(t, u) && Extends(u, w)
    ensures Extends(t, w)
    decreases t
  {
    forall i | 0 <= i < |t.ents| && t.ents[i].Sub?
      ensures Extends(t.ents[i].t, w.ents[i].t)
    {
      ExtendsTrans(t.ents[i].t, u.ents[i].t, w.ents[i].t);
    }
  }

  /** The two tables answer alike over the range that starts at `base`. */
  ghost predicate SameMaps(g: Geometry, l: nat, t: Table, u: Table, base: nat)
    requires WF(g, l, t) && WF(g, l, u)
  {
    forall x | base <= x < base + Span(g, l) :: Lookup(g, l, t, x) == Lookup(g, l, u, x)
  }

  /** A pruned extension that maps nothing more is no extension: the tables are the same. */
  lemma {:induction false} SameMapsSameTree(g: Geometry, l: nat, t: Table, u: Table, base: nat)
    requires Known(g) && WF(g, l, t) && WF(g, l, u) && Extends(t, u) && Pruned(u)
    requires base % Span(g, l) == 0 && SameMaps(g, l, t, u, base)
    ensures t == u
    decreases t, 1
  {
    hide SameMaps, Span, PlaceOk;
    forall i: nat | i < |t.ents|
      ensures t.ents[i] == u.ents[i]
    {
      SameEntry(g, l, t, u, base, i);
    }
  }

  lemma {:induction false} SameEntry(g: Geometry, l: nat, t: Table, u: Table, base: nat, i: nat)
    requires Known(g) && WF(g, l, t) && WF(g, l, u) && Extends(t, u) && Pruned(u) && i < |t.ents|
    requires base % Span(g, l) == 0 && SameMaps(g, l, t, u, base)
    ensures t.ents[i] == u.ents[i]
    decreases t, 0
  {
    hide BlockSize, Index, PlaceOk, BlockStart, SameMaps;
    var start := BlockStart(g, l, base, i);
    IndexOfBlock(g, l, base, i, start);
    if !u.ents[i].Sub? {
      SameAt(g, l, t, u, base, start);
    } else if t.ents[i].Sub? {
      SameMapsBelow(g, l, t, u, base, i, start);
      SameMapsSameTree(g, l + 1, t.ents[i].t, u.ents[i].t, start);
    } else {
      var x := NonEmptyMaps(g, l + 1, u.ents[i].t, start);
      IndexOfBlock(g, l, base, i, x);
      SameAt(g, l, t, u, base, x);
    }
  }

  lemma SameAt(g: Geometry, l: nat, t: Table, u: Table, base: nat, x: nat)
    requires WF(g, l, t) && WF(g, l, u) && SameMaps(g, l, t, u, base) && base <= x < base + Span(g, l)
    ensures Lookup(g, l, t, x) == Lookup(g, l, u, x)
  {
  }

  lemma SameMapsBelow(g: Geometry, l: nat, t: Table, u: Table, base: nat, i: nat, start: nat)
    requires Known(g) && WF(g, l, t) && WF(g, l, u) && i < |t.ents| && |u.ents| == |t.ents|
    requires base % Span(g, l) == 0 && SameMaps(g, l, t, u, base) && start == BlockStart(g, l, base, i)
    requires t.ents[i].Sub? && u.ents[i].Sub?
    ensures SameMaps(g, l + 1, t.ents[i].t, u.ents[i].t, start)
  {
    hide BlockSize, Index, PlaceOk, BlockStart;
    var next := l + 1;
    forall x | start <= x < start + Span(g, next)
      ensures Lookup(g, next, t.ents[i].t, x) == Lookup(g, next, u.ents[i].t, x)
    {
      IndexOfBlock(g, l, base, i, x);
      SameAt(g, l, t, u, base, x);
    }
  }
}
