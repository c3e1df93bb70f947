/** The block allocator of lib/balloc.c: a fixed table of free blocks, first fit with
    alignment splits, coalescing on free. */
module Balloc {
  import opened Words
  import opened Arith
  import opened Bits

  const MAX_BLOCKS := 128

  /** A run of bytes. In the table, address 0 (NULL) marks an unused slot. */
  datatype Block = Block(addr: u32, size: u32) {
    predicate Used() { addr != 0 }
    predicate Covers(x: int) { addr <= x < addr + size }
    predicate Apart(other: Block) { addr + size <= other.addr || other.addr + other.size <= addr }
    predicate Within(lo: int, hi: int) { lo <= addr && addr + size <= hi }
  }

  const NO_BLOCK := Block(0, 0)

  /** Bytes from `addr` up to the next multiple of `p`. */
  function Padding(addr: u32, p: nat): (n: u32)
    requires 0 < p <= WORD
    ensures n < p && (addr + n) % p == 0
  {
    PaddingAligns(addr, p);
    (p - addr % p) % p
  }

  lemma PaddingAligns(addr: u32, p: nat)
    requires 0 < p
    ensures 0 <= (p - addr % p) % p < p && (addr + (p - addr % p) % p) % p == 0
  {
    var r := addr % p;
    DivBounds(addr, p);
    if r == 0 {
      DivUnique(p, p, 1);
    } else {
      DivUnique(p - r, p, 0);
      assert (addr / p + 1) * p == addr / p * p + p;
      DivUnique(addr + (p - r), p, addr / p + 1);
    }
  }

  /** The two searches' conditions; the second adds in 32 bits. */
  predicate FitsAligned(b: Block, sz: u32, p: nat)
    requires 0 < p <= WORD
  {
    b.Used() && b.size >= sz && Aligned(b.addr, p)
  }

  predicate FitsPadded(b: Block, sz: u32, p: nat)
    requires 0 < p <= WORD
  {
    b.Used() && b.size >= (sz + Padding(b.addr, p)) % WORD
  }

  /** First slot at or after `i` satisfying a search condition, `|fb|` when there is none. */
  function FirstAligned(fb: seq<Block>, sz: u32, p: nat, i: nat): (k: nat)
    requires 0 < p <= WORD && i <= |fb|
    ensures i <= k <= |fb|
    ensures k < |fb| ==> FitsAligned(fb[k], sz, p)
    ensures forall j | i <= j < k :: !FitsAligned(fb[j], sz, p)
    decreases |fb| - i
  {
    if i == |fb| || FitsAligned(fb[i], sz, p) then i else FirstAligned(fb, sz, p, i + 1)
  }

  function FirstPadded(fb: seq<Block>, sz: u32, p: nat, i: nat): (k: nat)
    requires 0 < p <= WORD && i <= |fb|
    ensures i <= k <= |fb|
    ensures k < |fb| ==> FitsPadded(fb[k], sz, p)
    ensures forall j | i <= j < k :: !FitsPadded(fb[j], sz, p)
    decreases |fb| - i
  {
    if i == |fb| || FitsPadded(fb[i], sz, p) then i else FirstPadded(fb, sz, p, i + 1)
  }

  function FirstUnused(fb: seq<Block>, i: nat): (k: nat)
    requires i <= |fb|
    ensures i <= k <= |fb|
    ensures k < |fb| ==> !fb[k].Used()
    ensures forall j | i <= j < k :: fb[j].Used()
    decreases |fb| - i
  {
    if i == |fb| || !fb[i].Used() then i else FirstUnused(fb, i + 1)
  }

  /** Where the first loop of `balloc_free` stops: at an unused slot or at a block that
      starts where the freed one ends. */
  function FirstAdjacent(fb: seq<Block>, addr: u32, sz: u32, i: nat): (k: nat)
    requires i <= |fb|
    ensures i <= k <= |fb|
    ensures k < |fb| ==> !fb[k].Used() || (fb[k].addr - sz) % WORD == addr
    ensures forall j | i <= j < k :: fb[j].Used() && (fb[j].addr - sz) % WORD != addr
    decreases |fb| - i
  {
    if i == |fb| || !fb[i].Used() || (fb[i].addr - sz) % WORD == addr then i else FirstAdjacent(fb, addr, sz, i + 1)
  }

  /** Take `sz` bytes off the front of a block. */
  function Shrunk(b: Block, sz: u32): Block
  {
    if b.size == sz then NO_BLOCK else Block((b.addr + sz) % WORD, (b.size - sz) % WORD)
  }

  /** Cut slot `i` at offset `pad`; the upper part goes to slot `j`. */
  function Split(fb: seq<Block>, i: nat, j: nat, pad: u32): (s: seq<Block>)
    requires i < |fb| && j < |fb|
    ensures |s| == |fb|
  {
    fb[j := Block((fb[i].addr + pad) % WORD, (fb[i].size - pad) % WORD)][i := Block(fb[i].addr, pad)]
  }

  /** The slot a request is served from, after the split it may need. */
  datatype Choice = OutOfMemory | NoSlot | From(slot: nat, fb: seq<Block>)

  function Choose(fb: seq<Block>, sz: u32, p: nat): (c: Choice)
    requires 0 < p <= WORD
    ensures c.From? ==> |c.fb| == |fb| && c.slot < |fb|
  {
    var i := FirstAligned(fb, sz, p, 0);
    if i < |fb| then From(i, fb)
    else
      var i := FirstPadded(fb, sz, p, 0);
      var j := FirstUnused(fb, 0);
      if i == |fb| then OutOfMemory
      else if j == |fb| then NoSlot
      else From(j, Split(fb, i, j, Padding(fb[i].addr, p)))
  }

  /** `balloc_alloc` on the table: the address handed out (0 on failure) and the new table. */
  function Alloc(fb: seq<Block>, sz: u32, p: nat): (r: (u32, seq<Block>))
    requires 0 < p <= WORD
    ensures |r.1| == |fb|
  {
    match Choose(fb, sz, p)
    case From(i, split) => (split[i].addr, split[i := Shrunk(split[i], sz)])
    case _ => (0, fb)
  }

  /** `balloc_free` on the table. */
  function Free(fb: seq<Block>, addr: u32, sz: u32): (r: (int, seq<Block>))
    ensures |r.1| == |fb|
  {
    var i := FirstAdjacent(fb, addr, sz, 0);
    if i < |fb| && (fb[i].addr - sz) % WORD == addr then
      (0, fb[i := Block((fb[i].addr - sz) % WORD, (fb[i].size + sz) % WORD)])
    else
      var j := FirstUnused(fb, 0);
      if j == |fb| then (-1, fb) else (0, fb[j := Block(addr, sz)])
  }

  ghost predicate InFree(fb: seq<Block>, x: int)
  {
    exists i :: 0 <= i < |fb| && fb[i].Covers(x)
  }

  ghost predicate InLive(live: set<Block>, x: int)
  {
    exists b :: b in live && b.Covers(x)
  }

  /** Free and live blocks are pairwise disjoint and together are exactly the arena
      `[lo, hi)`. */
  ghost predicate Tiling(fb: seq<Block>, live: set<Block>, lo: int, hi: int)
  {
    && 0 < lo <= hi <= WORD
    && (forall i | 0 <= i < |fb| :: fb[i] == NO_BLOCK || (fb[i].size > 0 && fb[i].Within(lo, hi)))
    && (forall b | b in live :: b.size > 0 && b.Within(lo, hi))
    && (forall i, j | 0 <= i < j < |fb| && fb[i].Used() && fb[j].Used() :: fb[i].Apart(fb[j]))
    && (forall b, c | b in live && c in live && b != c :: b.Apart(c))
    && (forall i, b | 0 <= i < |fb| && b in live && fb[i].Used() :: fb[i].Apart(b))
    && (forall x | lo <= x < hi :: InFree(fb, x) || InLive(live, x))
  }

  /** Sizes for which the 32-bit sum of size and padding cannot wrap. */
  predicate SafeSize(sz: u32, p: nat)
  {
    sz + p <= WORD
  }

  lemma SplitTiles(fb: seq<Block>, live: set<Block>, lo: int, hi: int, i: nat, j: nat, pad: u32)
    requires Tiling(fb, live, lo, hi) && i < |fb| && j < |fb|
    requires fb[i].Used() && !fb[j].Used() && 0 < pad < fb[i].size
    ensures Tiling(Split(fb, i, j, pad), live, lo, hi)
  {
    var s := Split(fb, i, j, pad);
    assert s[i] == Block(fb[i].addr, pad) && s[j] == Block(fb[i].addr + pad, fb[i].size - pad);
    forall x | lo <= x < hi
      ensures InFree(s, x) || InLive(live, x)
    {
      if InFree(fb, x) {
        var k :| 0 <= k < |fb| && fb[k].Covers(x);
        assert k != i ==> s[k].Covers(x);
        assert k == i ==> s[i].Covers(x) || s[j].Covers(x);
      }
    }
  }

  lemma TakeTiles(fb: seq<Block>, live: set<Block>, lo: int, hi: int, i: nat, sz: u32)
    requires Tiling(fb, live, lo, hi) && i < |fb|
    requires fb[i].Used() && 0 < sz <= fb[i].size
    ensures Tiling(fb[i := Shrunk(fb[i], sz)], live + {Block(fb[i].addr, sz)}, lo, hi)
    ensures Block(fb[i].addr, sz) !in live
  {
    var s, taken := fb[i := Shrunk(fb[i], sz)], Block(fb[i].addr, sz);
    assert sz < fb[i].size ==> s[i] == Block(fb[i].addr + sz, fb[i].size - sz);
    forall x | lo <= x < hi
      ensures InFree(s, x) || InLive(live + {taken}, x)
    {
      if InFree(fb, x) {
        var k :| 0 <= k < |fb| && fb[k].Covers(x);
        assert k != i ==> s[k].Covers(x);
        assert k == i ==> taken.Covers(x) || s[i].Covers(x);
      } else {
        var b :| b in live && b.Covers(x);
        assert b in live + {taken};
      }
    }
    assert taken !in live by {
      assert taken in live ==> fb[i].Apart(taken);
    }
  }

  lemma SplitUpper(fb: seq<Block>, i: nat, j: nat, pad: u32)
    requires i < |fb| && j < |fb| && i != j
    requires fb[i].addr + fb[i].size <= WORD && pad < fb[i].size
    ensures Split(fb, i, j, pad)[j] == Block(fb[i].addr + pad, fb[i].size - pad)
  {
  }

  /** A block that only fits after padding really needs padding and has room for it. */
  lemma PaddedFit(b: Block, sz: u32, p: nat)
    requires sz > 0 && 0 < p && WORD % p == 0 && SafeSize(sz, p)
    requires FitsPadded(b, sz, p) && !FitsAligned(b, sz, p)
    ensures 0 < Padding(b.addr, p) && sz + Padding(b.addr, p) <= b.size
  {
    hide Aligned;
    AlignedIsMultiple(b.addr, p);
    assert (sz + Padding(b.addr, p)) % WORD == sz + Padding(b.addr, p);
  }

  /** Where the chosen block comes from, when sizes do not wrap. */
  lemma ChosenBlock(fb: seq<Block>, live: set<Block>, lo: int, hi: int, sz: u32, p: nat)
    requires Tiling(fb, live, lo, hi) && sz > 0
    requires 0 < p && WORD % p == 0 && SafeSize(sz, p)
    requires Choose(fb, sz, p).From?
    ensures var c := Choose(fb, sz, p);
            && Tiling(c.fb, live, lo, hi)
            && c.fb[c.slot].Used() && c.fb[c.slot].size >= sz && c.fb[c.slot].addr % p == 0
  {
    hide Aligned, Padding, Split;
    var i := FirstAligned(fb, sz, p, 0);
    if i < |fb| {
      AlignedIsMultiple(fb[i].addr, p);
    } else {
      var i, j := FirstPadded(fb, sz, p, 0), FirstUnused(fb, 0);
      PaddedFit(fb[i], sz, p);
      SplitTiles(fb, live, lo, hi, i, j, Padding(fb[i].addr, p));
      SplitUpper(fb, i, j, Padding(fb[i].addr, p));
    }
  }

  /** An allocation hands out an aligned block of the arena, disjoint from every live block,
      and keeps the tiling. */
  lemma AllocSafe(fb: seq<Block>, live: set<Block>, lo: int, hi: int, sz: u32, p: nat)
    requires Tiling(fb, live, lo, hi) && sz > 0
    requires 0 < p && WORD % p == 0 && SafeSize(sz, p)
    requires Alloc(fb, sz, p).0 != 0
    ensures var (addr, fb') := Alloc(fb, sz, p);
            && addr % p == 0 && Block(addr, sz) !in live
            && Tiling(fb', live + {Block(addr, sz)}, lo, hi)
  {
    ChosenBlock(fb, live, lo, hi, sz, p);
    var c := Choose(fb, sz, p);
    TakeTiles(c.fb, live, lo, hi, c.slot, sz);
  }

  /** Allocation fails exactly when no free block holds the request after padding, or only
      unaligned ones do and no table slot is left for the split. The table is unchanged. */
  lemma AllocFails(fb: seq<Block>, live: set<Block>, lo: int, hi: int, sz: u32, p: nat)
    requires Tiling(fb, live, lo, hi) && sz > 0
    requires 0 < p && WORD % p == 0 && SafeSize(sz, p)
    ensures Alloc(fb, sz, p).0 == 0 <==>
      || (forall i | 0 <= i < |fb| :: fb[i].Used() ==> fb[i].size < sz + Padding(fb[i].addr, p))
      || ((forall i | 0 <= i < |fb| :: fb[i].Used() && (fb[i].size < sz || fb[i].addr % p != 0)))
    ensures Alloc(fb, sz, p).0 == 0 ==> Alloc(fb, sz, p).1 == fb
  {
    hide Aligned, Padding, Split;
    forall i | 0 <= i < |fb|
      ensures FitsAligned(fb[i], sz, p) <==> fb[i].Used() && fb[i].size >= sz && fb[i].addr % p == 0
      ensures FitsPadded(fb[i], sz, p) <==> fb[i].Used() && fb[i].size >= sz + Padding(fb[i].addr, p)
      ensures FitsAligned(fb[i], sz, p) ==> FitsPadded(fb[i], sz, p)
    {
      FitsMeaning(fb[i], sz, p);
    }
    if Choose(fb, sz, p).From? {
      ChosenBlock(fb, live, lo, hi, sz, p);
    }
  }

  lemma FitsMeaning(b: Block, sz: u32, p: nat)
    requires sz > 0 && 0 < p && WORD % p == 0 && SafeSize(sz, p)
    ensures FitsAligned(b, sz, p) <==> b.Used() && b.size >= sz && b.addr % p == 0
    ensures FitsPadded(b, sz, p) <==> b.Used() && b.size >= sz + Padding(b.addr, p)
    ensures b.addr % p == 0 ==> Padding(b.addr, p) == 0
  {
    hide Aligned;
    AlignedIsMultiple(b.addr, p);
    assert (sz + Padding(b.addr, p)) % WORD == sz + Padding(b.addr, p);
    DivUnique(p, p, 1);
  }

  /** Freeing a live block keeps the tiling; it fails only when every slot is used and no
      free block starts where it ends. */
  lemma FreeSafe(fb: seq<Block>, live: set<Block>, lo: int, hi: int, b: Block)
    requires Tiling(fb, live, lo, hi) && b in live
    ensures var (rc, fb') := Free(fb, b.addr, b.size);
            && (rc == 0 ==> Tiling(fb', live - {b}, lo, hi))
            && (rc != 0 ==> rc == -1 && fb' == fb)
            && (rc != 0 <==> forall i | 0 <= i < |fb| :: fb[i].Used() && fb[i].addr != b.addr + b.size)
  {
    hide Tiling;
    var i := FirstAdjacent(fb, b.addr, b.size, 0);
    LiveBounds(fb, live, lo, hi, b);
    forall k | 0 <= k < |fb|
      ensures fb[k].Used() ==> ((fb[k].addr - b.size) % WORD == b.addr <==> fb[k].addr == b.addr + b.size)
    {
      if fb[k].Used() {
        AdjacentMeaning(fb[k].addr, b);
      }
    }
    if i < |fb| && (fb[i].addr - b.size) % WORD == b.addr {
      MergeTiles(fb, live, lo, hi, i, b);
    } else {
      var j := FirstUnused(fb, 0);
      if j < |fb| {
        MergeTiles(fb, live, lo, hi, j, b);
      }
    }
  }

  lemma LiveBounds(fb: seq<Block>, live: set<Block>, lo: int, hi: int, b: Block)
    requires Tiling(fb, live, lo, hi) && b in live
    ensures 0 < b.addr && 0 < b.size && b.addr + b.size <= WORD
    ensures forall i | 0 <= i < |fb| && !fb[i].Used() :: fb[i] == NO_BLOCK
    ensures forall i | 0 <= i < |fb| && fb[i].addr == b.addr + b.size :: b.size + fb[i].size < WORD
  {
  }

  lemma AdjacentMeaning(addr: u32, b: Block)
    requires addr != 0 && 0 < b.addr && 0 < b.size && b.addr + b.size <= WORD
    ensures (addr - b.size) % WORD == b.addr <==> addr == b.addr + b.size
  {
  }

  /** Putting a live block in front of the free block it touches, or in an unused slot. */
  lemma MergeTiles(fb: seq<Block>, live: set<Block>, lo: int, hi: int, i: nat, b: Block)
    requires Tiling(fb, live, lo, hi) && b in live && i < |fb|
    requires fb[i].Used() ==> fb[i].addr == b.addr + b.size
    ensures b.size + fb[i].size < WORD
    ensures Tiling(fb[i := Block(b.addr, b.size + fb[i].size)], live - {b}, lo, hi)
  {
    var s := fb[i := Block(b.addr, b.size + fb[i].size)];
    forall x | lo <= x < hi
      ensures InFree(s, x) || InLive(live - {b}, x)
    {
      if InFree(fb, x) {
        var k :| 0 <= k < |fb| && fb[k].Covers(x);
        assert s[k].Covers(x);
      } else {
        var c :| c in live && c.Covers(x);
        assert c == b ==> s[i].Covers(x);
        assert c != b ==> c in live - {b};
      }
    }
  }

  /** Table slots not in use. */
  function Unused(fb: seq<Block>): (n: nat)
    ensures n <= |fb|
  {
    if |fb| == 0 then 0 else Unused(fb[1..]) + (if fb[0].Used() then 0 else 1)
  }

  lemma {:induction false} UnusedUpdate(fb: seq<Block>, i: nat, b: Block)
    requires i < |fb|
    ensures Unused(fb[i := b]) == Unused(fb) + (if b.Used() then 0 else 1) - (if fb[i].Used() then 0 else 1)
  {
    if i == 0 {
      assert fb[0 := b][1..] == fb[1..];
    } else {
      assert fb[i := b][1..] == fb[1..][i - 1 := b];
      UnusedUpdate(fb[1..], i - 1, b);
    }
  }

  lemma {:induction false} SomeUnused(fb: seq<Block>)
    ensures Unused(fb) > 0 <==> exists i :: 0 <= i < |fb| && !fb[i].Used()
  {
    if |fb| > 0 {
      SomeUnused(fb[1..]);
      if i: int :| 0 <= i < |fb| && !fb[i].Used() {
        assert i > 0 ==> !fb[1..][i - 1].Used();
      }
      if i: int :| 0 <= i < |fb| - 1 && !fb[1..][i].Used() {
        assert !fb[i + 1].Used();
      }
    }
  }

  /** With a slot to spare a free succeeds and uses up at most that slot. */
  lemma FreeUsesOneSlot(fb: seq<Block>, addr: u32, sz: u32)
    requires Unused(fb) > 0 && addr > 0
    ensures Free(fb, addr, sz).0 == 0 && Unused(Free(fb, addr, sz).1) >= Unused(fb) - 1
  {
    SomeUnused(fb);
    var i, j := FirstAdjacent(fb, addr, sz, 0), FirstUnused(fb, 0);
    if i < |fb| && (fb[i].addr - sz) % WORD == addr {
      UnusedUpdate(fb, i, Free(fb, addr, sz).1[i]);
    } else {
      UnusedUpdate(fb, j, Block(addr, sz));
    }
  }

  /** Slot `i` holds the free block that starts where `b` ends. */
  predicate Follows(fb: seq<Block>, b: Block, i: nat)
    requires i < |fb|
  {
    fb[i].Used() && fb[i].addr == b.addr + b.size
  }

  predicate AllUsed(fb: seq<Block>, i: nat)
    requires i <= |fb|
  {
    forall j | 0 <= j < i :: fb[j].Used()
  }

  /** Freeing merges with the free block behind when that one comes before every unused slot;
      otherwise the first unused slot takes the block. */
  lemma FreeExact(fb: seq<Block>, live: set<Block>, lo: int, hi: int, b: Block, i: nat)
    requires Tiling(fb, live, lo, hi) && b in live && i < |fb| && AllUsed(fb, i)
    requires forall j | 0 <= j < i :: !Follows(fb, b, j)
    ensures Follows(fb, b, i) ==>
      && Free(fb, b.addr, b.size) == (0, fb[i := Block(b.addr, b.size + fb[i].size)])
      && Unused(Free(fb, b.addr, b.size).1) == Unused(fb)
    ensures !fb[i].Used() ==>
      && Free(fb, b.addr, b.size) == (0, fb[i := b])
      && Unused(Free(fb, b.addr, b.size).1) == Unused(fb) - 1
  {
    hide Tiling, Unused, FirstAdjacent, Follows;
    if Follows(fb, b, i) || !fb[i].Used() {
      LiveBounds(fb, live, lo, hi, b);
      StopsAt(fb, b, i);
      UnusedUpdate(fb, i, Free(fb, b.addr, b.size).1[i]);
    }
  }

  /** Where the search of a free for its neighbour stops, and how it takes what it finds. */
  lemma StopsAt(fb: seq<Block>, b: Block, i: nat)
    requires 0 < b.addr && 0 < b.size && b.addr + b.size <= WORD && i < |fb| && AllUsed(fb, i)
    requires forall j | 0 <= j < i :: !Follows(fb, b, j)
    ensures Follows(fb, b, i) ==> fb[i].Used() && fb[i].addr == b.addr + b.size
    ensures Follows(fb, b, i) || !fb[i].Used() ==> FirstAdjacent(fb, b.addr, b.size, 0) == i
    ensures fb[i].Used() ==> ((fb[i].addr - b.size) % WORD == b.addr <==> Follows(fb, b, i))
  {
    forall j | 0 <= j < |fb| && fb[j].Used()
      ensures (fb[j].addr - b.size) % WORD == b.addr <==> Follows(fb, b, j)
    {
      AdjacentMeaning(fb[j].addr, b);
    }
  }

  /** Slot `i` serves a request as it is, or after padding. */
  predicate ServesAligned(fb: seq<Block>, sz: u32, p: nat, i: nat)
    requires i < |fb| && 0 < p
  {
    fb[i].Used() && sz <= fb[i].size && fb[i].addr % p == 0
  }

  predicate ServesPadded(fb: seq<Block>, sz: u32, p: nat, i: nat)
    requires i < |fb| && 0 < p <= WORD
  {
    fb[i].Used() && sz + Padding(fb[i].addr, p) <= fb[i].size
  }

  /** First fit: the first aligned block that is large enough is cut at its front. */
  lemma AllocAligned(fb: seq<Block>, live: set<Block>, lo: int, hi: int, sz: u32, p: nat, i: nat)
    requires Tiling(fb, live, lo, hi) && sz > 0 && 0 < p && WORD % p == 0 && SafeSize(sz, p) && i < |fb|
    requires ServesAligned(fb, sz, p, i) && forall j | 0 <= j < i :: !ServesAligned(fb, sz, p, j)
    ensures Alloc(fb, sz, p) ==
              (fb[i].addr, fb[i := if fb[i].size == sz then NO_BLOCK else Block(fb[i].addr + sz, fb[i].size - sz)])
  {
    hide Aligned, Padding, Tiling;
    InArena(fb, live, lo, hi);
    forall j | 0 <= j < |fb|
      ensures FitsAligned(fb[j], sz, p) <==> ServesAligned(fb, sz, p, j)
    {
      FitsMeaning(fb[j], sz, p);
    }
    assert FirstAligned(fb, sz, p, 0) == i;
  }

  /** Only when there is none, the first block large enough after padding is split: its front
      stays in its slot, what is left behind the grant goes to the first unused slot. */
  lemma AllocPadded(fb: seq<Block>, live: set<Block>, lo: int, hi: int, sz: u32, p: nat, i: nat, k: nat)
    requires Tiling(fb, live, lo, hi) && sz > 0 && 0 < p && WORD % p == 0 && SafeSize(sz, p) && i < |fb|
    requires forall j | 0 <= j < |fb| :: !ServesAligned(fb, sz, p, j)
    requires ServesPadded(fb, sz, p, i) && forall j | 0 <= j < i :: !ServesPadded(fb, sz, p, j)
    requires k < |fb| && !fb[k].Used() && AllUsed(fb, k)
    ensures var pad := Padding(fb[i].addr, p);
            var left := fb[i].size - pad - sz;
            && 0 < pad < fb[i].size
            && Alloc(fb, sz, p) ==
                 (fb[i].addr + pad,
                  fb[i := Block(fb[i].addr, pad)]
                    [k := if left == 0 then NO_BLOCK else Block(fb[i].addr + pad + sz, left)])
  {
    hide Tiling, Choose, Split, Padding;
    InArena(fb, live, lo, hi);
    ChosenPadded(fb, sz, p, i, k);
    SplitAndTake(fb, i, k, Padding(fb[i].addr, p), sz);
  }

  lemma ChosenPadded(fb: seq<Block>, sz: u32, p: nat, i: nat, k: nat)
    requires sz > 0 && 0 < p && WORD % p == 0 && SafeSize(sz, p) && i < |fb|
    requires forall j | 0 <= j < |fb| :: !ServesAligned(fb, sz, p, j)
    requires ServesPadded(fb, sz, p, i) && forall j | 0 <= j < i :: !ServesPadded(fb, sz, p, j)
    requires k < |fb| && !fb[k].Used() && AllUsed(fb, k)
    ensures Choose(fb, sz, p) == From(k, Split(fb, i, k, Padding(fb[i].addr, p))) && 0 < Padding(fb[i].addr, p)
  {
    hide Aligned, Padding, Split;
    forall j | 0 <= j < |fb|
      ensures FitsAligned(fb[j], sz, p) <==> ServesAligned(fb, sz, p, j)
      ensures FitsPadded(fb[j], sz, p) <==> ServesPadded(fb, sz, p, j)
    {
      FitsMeaning(fb[j], sz, p);
    }
    assert FirstPadded(fb, sz, p, 0) == i && FirstUnused(fb, 0) == k;
    PaddedFit(fb[i], sz, p);
  }

  lemma SplitAndTake(fb: seq<Block>, i: nat, k: nat, pad: nat, sz: nat)
    requires i < |fb| && k < |fb| && i != k && 0 < sz && pad + sz <= fb[i].size && fb[i].addr + fb[i].size <= WORD
    ensures var s, left := Split(fb, i, k, pad), fb[i].size - pad - sz;
            && s[k].addr == fb[i].addr + pad
            && s[k := Shrunk(s[k], sz)] ==
                 fb[i := Block(fb[i].addr, pad)]
                   [k := if left == 0 then NO_BLOCK else Block(fb[i].addr + pad + sz, left)]
  {
    SplitUpper(fb, i, k, pad);
  }

  /** Giving back what was just taken off the front of a larger aligned block, when no unused
      slot comes before that block, restores the table. */
  lemma FreeUndoesAlloc(fb: seq<Block>, live: set<Block>, lo: int, hi: int, sz: u32, p: nat, i: nat)
    requires Tiling(fb, live, lo, hi) && sz > 0 && 0 < p && WORD % p == 0 && SafeSize(sz, p) && i < |fb|
    requires ServesAligned(fb, sz, p, i) && forall j | 0 <= j < i :: !ServesAligned(fb, sz, p, j)
    requires AllUsed(fb, i) && sz < fb[i].size
    ensures var (addr, fb') := Alloc(fb, sz, p); Free(fb', addr, sz) == (0, fb)
  {
    hide Tiling, Alloc, Free;
    AllocAligned(fb, live, lo, hi, sz, p, i);
    AllocSafe(fb, live, lo, hi, sz, p);
    var (addr, fb') := Alloc(fb, sz, p);
    var b := Block(addr, sz);
    NotBehind(fb, live, lo, hi, i, b);
    FreeExact(fb', live + {b}, lo, hi, b, i);
    assert fb'[i := fb[i]] == fb;
  }

  lemma NotBehind(fb: seq<Block>, live: set<Block>, lo: int, hi: int, i: nat, b: Block)
    requires Tiling(fb, live, lo, hi) && i < |fb| && fb[i].Used() && b.addr == fb[i].addr && 0 < b.size < fb[i].size
    ensures fb[i].addr + fb[i].size <= WORD
    ensures forall j | 0 <= j < |fb| && j != i && fb[j].Used() :: fb[j].addr != b.addr + b.size
  {
    forall j | 0 <= j < |fb| && j != i && fb[j].Used()
      ensures fb[j].Apart(fb[i])
    {
      if j < i {
        assert fb[j].Apart(fb[i]);
      } else {
        assert fb[i].Apart(fb[j]);
      }
    }
  }

  /** Whether `n` allocations of one size in a row succeed, and the table they leave. */
  predicate CanAlloc(fb: seq<Block>, sz: u32, p: nat, n: nat)
    requires 0 < p <= WORD
    decreases n
  {
    n == 0 || (Alloc(fb, sz, p).0 != 0 && CanAlloc(Alloc(fb, sz, p).1, sz, p, n - 1))
  }

  function AllocTimes(fb: seq<Block>, sz: u32, p: nat, n: nat): seq<Block>
    requires 0 < p <= WORD
    decreases n
  {
    if n == 0 then fb else AllocTimes(Alloc(fb, sz, p).1, sz, p, n - 1)
  }

  /** Allocations in a row can be made in two portions. */
  lemma {:induction false} AllocInTurn(fb: seq<Block>, sz: u32, p: nat, m: nat, n: nat)
    requires 0 < p <= WORD
    ensures CanAlloc(fb, sz, p, m + n) <==> CanAlloc(fb, sz, p, m) && CanAlloc(AllocTimes(fb, sz, p, m), sz, p, n)
    ensures AllocTimes(fb, sz, p, m + n) == AllocTimes(AllocTimes(fb, sz, p, m), sz, p, n)
    decreases m
  {
    hide Alloc;
    if m > 0 {
      AllocInTurn(Alloc(fb, sz, p).1, sz, p, m - 1, n);
    }
  }

  /** A block with room for `n` allocations after padding. */
  predicate RoomIn(b: Block, sz: nat, p: nat, n: nat)
    requires 0 < p <= WORD
  {
    b.Used() && n * sz + Padding(b.addr, p) <= b.size
  }

  /** Slot `i` has room for `n` allocations and there is a spare slot for every split. */
  predicate Room(fb: seq<Block>, i: nat, sz: nat, p: nat, n: nat)
    requires 0 < p <= WORD
  {
    n == 0 || (i < |fb| && RoomIn(fb[i], sz, p, n) && n <= Unused(fb))
  }

  /** Taking one allocation off an aligned block, be it slot `i` or another. */
  lemma TakeLeavesRoom(fb: seq<Block>, k: nat, i: nat, sz: u32, p: nat, n: nat)
    requires 0 < p <= WORD && sz > 0 && sz % p == 0 && k < |fb| && i < |fb| && 0 < n <= Unused(fb) + 1
    requires fb[k].Used() && sz <= fb[k].size && fb[k].addr + fb[k].size <= WORD && fb[k].addr % p == 0
    requires RoomIn(fb[i], sz, p, n)
    ensures Room(fb[k := Shrunk(fb[k], sz)], i, sz, p, n - 1)
  {
    hide Unused, RoomIn, Shrunk;
    UnusedUpdate(fb, k, Shrunk(fb[k], sz));
    LessRoom(fb[i], sz, p, n);
    if n > 1 && i == k {
      RoomBehind(fb[k], sz, p, n);
    }
  }

  lemma LessRoom(b: Block, sz: nat, p: nat, n: nat)
    requires 0 < p <= WORD && 0 < n && RoomIn(b, sz, p, n)
    ensures RoomIn(b, sz, p, n - 1)
  {
    hide Padding;
    assert n * sz == (n - 1) * sz + sz;
  }

  lemma RoomBehind(b: Block, sz: nat, p: nat, n: nat)
    requires 0 < p <= WORD && sz > 0 && sz % p == 0 && n > 1 && b.addr % p == 0 && b.addr + b.size <= WORD
    requires RoomIn(b, sz, p, n) && sz < WORD
    ensures RoomIn(Shrunk(b, sz), sz, p, n - 1)
  {
    hide Padding;
    assert n * sz == (n - 1) * sz + sz;
    MulMonotone(1, n - 1, sz);
    SumOfMultiples(b.addr, sz, p);
    NoPadding(b.addr + sz, p);
  }

  lemma NoPadding(addr: u32, p: nat)
    requires 0 < p <= WORD
    ensures Padding(addr, p) == 0 <==> addr % p == 0
  {
    DivUnique(p, p, 1);
  }

  /** One allocation succeeds, wherever first fit serves it from, and leaves room for one less. */
  lemma RoomLeft(fb: seq<Block>, live: set<Block>, lo: int, hi: int, i: nat, sz: u32, p: nat, n: nat) returns (j: nat)
    requires Tiling(fb, live, lo, hi) && 0 < p && WORD % p == 0 && SafeSize(sz, p) && sz > 0 && sz % p == 0
    requires n > 0 && Room(fb, i, sz, p, n)
    ensures Alloc(fb, sz, p).0 != 0 && Room(Alloc(fb, sz, p).1, j, sz, p, n - 1)
  {
    hide Aligned, Padding, Tiling, Unused, RoomIn, Split, Shrunk;
    SomeUnused(fb);
    RoomFits(fb[i], sz, p, n);
    ChosenBlock(fb, live, lo, hi, sz, p);
    InArena(fb, live, lo, hi);
    j := i;
    if FirstAligned(fb, sz, p, 0) < |fb| {
      TakeLeavesRoom(fb, FirstAligned(fb, sz, p, 0), i, sz, p, n);
    } else {
      var from, to := FirstPadded(fb, sz, p, 0), FirstUnused(fb, 0);
      PaddedFit(fb[from], sz, p);
      var pad := Padding(fb[from].addr, p);
      SplitUnused(fb, from, to, pad);
      var s := Split(fb, from, to, pad);
      if i == from {
        j := to;
        UpperRoom(fb[i], sz, p, n, s[to]);
      }
      TakeLeavesRoom(s, to, j, sz, p, n);
    }
  }

  lemma RoomFits(b: Block, sz: u32, p: nat, n: nat)
    requires 0 < p && WORD % p == 0 && SafeSize(sz, p) && sz > 0 && n > 0 && RoomIn(b, sz, p, n)
    ensures FitsPadded(b, sz, p)
  {
    FitsMeaning(b, sz, p);
    MulMonotone(1, n, sz);
  }

  lemma InArena(fb: seq<Block>, live: set<Block>, lo: int, hi: int)
    requires Tiling(fb, live, lo, hi)
    ensures forall i | 0 <= i < |fb| && fb[i].Used() :: fb[i].addr + fb[i].size <= WORD
  {
  }

  lemma UpperRoom(b: Block, sz: nat, p: nat, n: nat, upper: Block)
    requires 0 < p <= WORD && RoomIn(b, sz, p, n) && b.addr + b.size <= WORD && Padding(b.addr, p) < b.size
    requires upper == Block(b.addr + Padding(b.addr, p), b.size - Padding(b.addr, p))
    ensures RoomIn(upper, sz, p, n) && upper.addr % p == 0
  {
    hide Padding;
    NoPadding(upper.addr, p);
  }

  /** A split uses one slot and touches only the block it cuts. */
  lemma SplitUnused(fb: seq<Block>, i: nat, j: nat, pad: u32)
    requires i < |fb| && j < |fb| && fb[i].Used() && !fb[j].Used()
    requires fb[i].addr + fb[i].size <= WORD && 0 < pad < fb[i].size
    ensures var s := Split(fb, i, j, pad);
            && s[j] == Block(fb[i].addr + pad, fb[i].size - pad) && Unused(s) == Unused(fb) - 1
            && forall k | 0 <= k < |fb| && k != i && k != j :: s[k] == fb[k]
  {
    hide Unused;
    var upper := Block(fb[i].addr + pad, fb[i].size - pad);
    UnusedUpdate(fb, j, upper);
    UnusedUpdate(fb[j := upper], i, Block(fb[i].addr, pad));
  }

  /** A free block with room for `n` allocations and `n` spare slots are enough for `n`
      allocations. */
  lemma {:induction false} RoomSuffices(fb: seq<Block>, live: set<Block>, lo: int, hi: int, i: nat, sz: u32, p: nat,
        n: nat)
    requires Tiling(fb, live, lo, hi) && 0 < p && WORD % p == 0 && SafeSize(sz, p) && sz > 0 && sz % p == 0
    requires Room(fb, i, sz, p, n)
    ensures CanAlloc(fb, sz, p, n)
    decreases n
  {
    hide Alloc, Padding, Tiling, Room;
    if n > 0 {
      var j := RoomLeft(fb, live, lo, hi, i, sz, p, n);
      AllocSafe(fb, live, lo, hi, sz, p);
      RoomSuffices(Alloc(fb, sz, p).1, live + {Block(Alloc(fb, sz, p).0, sz)}, lo, hi, j, sz, p, n - 1);
    }
  }

  /** An allocation whose result keeps to the arena. */
  ghost predicate AllocStaysInside(fb: seq<Block>, lo: int, hi: int, sz: u32, p: nat)
    requires 0 < p <= WORD
  {
    var addr := Alloc(fb, sz, p).0;
    addr == 0 || (lo <= addr && addr + sz <= hi)
  }

  /** A one-block arena on which a request too large to pad without wrapping is granted. */
  lemma WrappingGrant(sz: u32, p: nat) returns (fb: seq<Block>, lo: int, hi: int)
    requires 0 < p <= 0x8000_0000 && WORD % p == 0 && !SafeSize(sz, p)
    ensures |fb| == MAX_BLOCKS && Tiling(fb, {}, lo, hi) && !AllocStaysInside(fb, lo, hi, sz, p)
  {
    hide Aligned, Padding;
    lo, hi := 1, p + 1;
    var b := Block(1, p);
    fb := seq(MAX_BLOCKS, i => if i == 0 then b else NO_BLOCK);
    WrappingFit(b, sz, p);
    assert FirstAligned(fb, sz, p, 0) == MAX_BLOCKS && FirstPadded(fb, sz, p, 0) == 0;
    assert FirstUnused(fb, 0) == 1 by {
      assert FirstUnused(fb, 1) == 1;
    }
    assert Choose(fb, sz, p) == From(1, Split(fb, 0, 1, p - 1));
    OneBlockTiles(fb, b);
  }

  lemma OneBlockTiles(fb: seq<Block>, b: Block)
    requires |fb| == MAX_BLOCKS && fb[0] == b && forall i | 0 < i < |fb| :: fb[i] == NO_BLOCK
    requires 0 < b.addr && 0 < b.size && b.addr + b.size <= WORD
    ensures Tiling(fb, {}, b.addr, b.addr + b.size)
  {
    forall x | b.addr <= x < b.addr + b.size
      ensures InFree(fb, x)
    {
      assert fb[0].Covers(x);
    }
  }

  /** The smallest misaligned block: the 32-bit sum makes it look large enough. */
  lemma WrappingFit(b: Block, sz: u32, p: nat)
    requires 1 < p <= 0x8000_0000 && WORD % p == 0 && !SafeSize(sz, p) && b == Block(1, p)
    ensures Padding(b.addr, p) == p - 1 && !FitsAligned(b, sz, p) && FitsPadded(b, sz, p)
  {
    hide Aligned;
    AlignedIsMultiple(1, p);
    DivUnique(1, p, 0);
    DivUnique(p - 1, p, 0);
  }

  /** The padding sum wraps for some arena exactly when size plus alignment exceeds 2^32:
      below that every grant of every tiled arena lies inside it. */
  lemma SafetyExact(sz: u32, p: nat)
    requires sz > 0 && 0 < p <= 0x8000_0000 && WORD % p == 0
    ensures SafeSize(sz, p) <==>
      forall fb: seq<Block>, live: set<Block>, lo: int, hi: int |
        |fb| == MAX_BLOCKS && Tiling(fb, live, lo, hi) :: AllocStaysInside(fb, lo, hi, sz, p)
  {
    hide Alloc;
    if SafeSize(sz, p) {
      forall fb: seq<Block>, live: set<Block>, lo: int, hi: int | |fb| == MAX_BLOCKS && Tiling(fb, live, lo, hi)
        ensures AllocStaysInside(fb, lo, hi, sz, p)
      {
        if Alloc(fb, sz, p).0 != 0 {
          AllocSafe(fb, live, lo, hi, sz, p);
          var granted := Block(Alloc(fb, sz, p).0, sz);
          assert granted in live + {granted};
        }
      }
    } else {
      var fb, lo, hi := WrappingGrant(sz, p);
    }
  }

  /** The allocator's whole state as a value: free table, live blocks, arena bounds. */
  datatype Pool = Pool(fb: seq<Block>, live: set<Block>, lo: int, hi: int) {
    ghost predicate Valid()
    {
      |fb| == MAX_BLOCKS && Tiling(fb, live, lo, hi)
    }

    function Take(sz: u32, p: nat): (r: (u32, Pool))
      requires 0 < p <= WORD
    {
      var (addr, fb') := Alloc(fb, sz, p);
      (addr, Pool(fb', if addr == 0 then live else live + {Block(addr, sz)}, lo, hi))
    }

    /** Only live blocks can be given back. */
    function Give(b: Block): (r: (int, Pool))
    {
      if b !in live then (-1, this)
      else
        var (rc, fb') := Free(fb, b.addr, b.size);
        (rc, Pool(fb', if rc == 0 then live - {b} else live, lo, hi))
    }

    lemma TakeSafe(sz: u32, p: nat)
      requires Valid() && sz > 0 && 0 < p && WORD % p == 0 && SafeSize(sz, p)
      ensures var (addr, q) := Take(sz, p);
              && q.Valid()
              && (addr == 0 ==> q == this)
              && (addr != 0 ==> addr % p == 0 && addr + sz <= WORD && Block(addr, sz) !in live
                                && q.live == live + {Block(addr, sz)})
    {
      if Alloc(fb, sz, p).0 == 0 {
        AllocFails(fb, live, lo, hi, sz, p);
      } else {
        AllocSafe(fb, live, lo, hi, sz, p);
        var granted := Block(Alloc(fb, sz, p).0, sz);
        assert granted in live + {granted};
      }
    }

    lemma GiveSafe(b: Block)
      requires Valid() && b in live
      ensures var (rc, q) := Give(b);
              q.Valid() && (rc == 0 ==> q.live == live - {b}) && (rc != 0 ==> q == this)
    {
      FreeSafe(fb, live, lo, hi, b);
    }
  }

  /** A call of the allocator; only sizes that cannot wrap are asked for. */
  datatype Request = Ask(sz: u32, p: nat) | Return(b: Block) {
    predicate Proper() { Ask? ==> sz > 0 && 0 < p <= WORD && WORD % p == 0 && SafeSize(sz, p) }
  }

  /** The state after a sequence of calls, each answered in turn. */
  function Perform(pool: Pool, requests: seq<Request>): Pool
    requires forall r | r in requests :: r.Proper()
    decreases |requests|
  {
    hide Alloc, Free;
    if |requests| == 0 then pool
    else
      assert requests[0].Proper();
      match requests[0]
      case Ask(sz, p) => Perform(pool.Take(sz, p).1, requests[1..])
      case Return(b) => Perform(pool.Give(b).1, requests[1..])
  }

  /** After every sequence of calls free and live blocks tile the arena exactly. */
  lemma {:induction false} RunsTile(pool: Pool, requests: seq<Request>)
    requires pool.Valid() && forall r | r in requests :: r.Proper()
    ensures var q := Perform(pool, requests); q.Valid() && q.lo == pool.lo && q.hi == pool.hi
    decreases |requests|
  {
    hide Tiling, Alloc, Free;
    if |requests| > 0 {
      assert requests[0].Proper();
      match requests[0]
      case Ask(sz, p) =>
        pool.TakeSafe(sz, p);
        RunsTile(pool.Take(sz, p).1, requests[1..]);
      case Return(b) =>
        if b in pool.live {
          pool.GiveSafe(b);
        }
        RunsTile(pool.Give(b).1, requests[1..]);
    }
  }

  /** The allocator object. `live` records what has been handed out and not returned. */
  class Allocator {
    const freeBlocks: array<Block>
    ghost const lo: int
    ghost const hi: int
    ghost var live: set<Block>

    ghost predicate Valid()
      reads this, freeBlocks
    {
      freeBlocks.Length == MAX_BLOCKS && State().Valid()
    }

    ghost function State(): Pool
      reads this, freeBlocks
    {
      Pool(freeBlocks[..], live, lo, hi)
    }

    constructor (addr: u32, size: u32)
      requires 0 < addr && 0 < size && addr + size <= WORD
      ensures Valid() && fresh(freeBlocks) && live == {} && lo == addr && hi == addr + size
    {
      freeBlocks := new Block[MAX_BLOCKS](i => if i == 0 then Block(addr, size) else NO_BLOCK);
      lo, hi, live := addr, addr + size, {};
      new;
      assert freeBlocks[..][0] == Block(addr, size);
      forall x | addr <= x < addr + size
        ensures InFree(freeBlocks[..], x)
      {
        assert freeBlocks[..][0].Covers(x);
      }
    }

    method FindAligned(sz: u32, p: nat) returns (i: nat)
      requires freeBlocks.Length == MAX_BLOCKS && 0 < p <= WORD
      ensures i == FirstAligned(freeBlocks[..], sz, p, 0)
    {
      hide Aligned;
      i := 0;
      while i < MAX_BLOCKS && !FitsAligned(freeBlocks[i], sz, p)
        invariant 0 <= i <= MAX_BLOCKS
        invariant FirstAligned(freeBlocks[..], sz, p, 0) == FirstAligned(freeBlocks[..], sz, p, i)
      {
        i := i + 1;
      }
    }

    method FindPadded(sz: u32, p: nat) returns (i: nat)
      requires freeBlocks.Length == MAX_BLOCKS && 0 < p <= WORD
      ensures i == FirstPadded(freeBlocks[..], sz, p, 0)
    {
      hide Padding;
      i := 0;
      while i < MAX_BLOCKS && !FitsPadded(freeBlocks[i], sz, p)
        invariant 0 <= i <= MAX_BLOCKS
        invariant FirstPadded(freeBlocks[..], sz, p, 0) == FirstPadded(freeBlocks[..], sz, p, i)
      {
        i := i + 1;
      }
    }

    method FindUnused() returns (i: nat)
      requires freeBlocks.Length == MAX_BLOCKS
      ensures i == FirstUnused(freeBlocks[..], 0)
    {
      i := 0;
      while i < MAX_BLOCKS && freeBlocks[i].Used()
        invariant 0 <= i <= MAX_BLOCKS
        invariant FirstUnused(freeBlocks[..], 0) == FirstUnused(freeBlocks[..], i)
      {
        i := i + 1;
      }
    }

    method FindAdjacent(addr: u32, sz: u32) returns (i: nat)
      requires freeBlocks.Length == MAX_BLOCKS
      ensures i == FirstAdjacent(freeBlocks[..], addr, sz, 0)
    {
      i := 0;
      while i < MAX_BLOCKS && freeBlocks[i].Used() && (freeBlocks[i].addr - sz) % WORD != addr
        invariant 0 <= i <= MAX_BLOCKS
        invariant FirstAdjacent(freeBlocks[..], addr, sz, 0) == FirstAdjacent(freeBlocks[..], addr, sz, i)
      {
        i := i + 1;
      }
    }

    /** The slot to serve a request from, after splitting a block in place if need be;
        `MAX_BLOCKS` when there is none. */
    method Select(sz: u32, p: nat) returns (i: nat)
      requires freeBlocks.Length == MAX_BLOCKS && 0 < p <= WORD
      modifies freeBlocks
      ensures i == MAX_BLOCKS ==> !Choose(old(freeBlocks[..]), sz, p).From? && freeBlocks[..] == old(freeBlocks[..])
      ensures i != MAX_BLOCKS ==> Choose(old(freeBlocks[..]), sz, p) == From(i, freeBlocks[..])
    {
      hide Aligned, Padding;
      i := FindAligned(sz, p);
      if i < MAX_BLOCKS {
        return i;
      }
      i := FindPadded(sz, p);
      if i == MAX_BLOCKS {
        return MAX_BLOCKS;
      }
      var j := FindUnused();
      if j == MAX_BLOCKS {
        return MAX_BLOCKS;
      }
      var pad, b := Padding(freeBlocks[i].addr, p), freeBlocks[i];
      freeBlocks[j] := Block((b.addr + pad) % WORD, (b.size - pad) % WORD);
      freeBlocks[i] := Block(b.addr, pad);
      assert freeBlocks[..] == Split(old(freeBlocks[..]), i, j, pad);
      return j;
    }

    /** 0 on failure. Any request is answered as `Alloc` of the table; one that cannot wrap
        keeps the arena tiled, with the new block live. */
    method Allocate(sz: u32, p: nat) returns (addr: u32)
      requires Valid() && 0 < p <= WORD && WORD % p == 0
      modifies this`live, freeBlocks
      ensures (addr, State()) == old(State()).Take(sz, p)
      ensures sz > 0 && SafeSize(sz, p) ==> Valid()
      ensures sz > 0 && SafeSize(sz, p) && addr != 0 ==> addr % p == 0 && Block(addr, sz) !in old(live)
    {
      hide Tiling, Shrunk, Choose;
      ghost var fb := freeBlocks[..];
      var i := Select(sz, p);
      if i == MAX_BLOCKS {
        return 0;
      }
      ghost var split := freeBlocks[..];
      addr := freeBlocks[i].addr;
      freeBlocks[i] := Shrunk(freeBlocks[i], sz);
      assert freeBlocks[..] == split[i := Shrunk(split[i], sz)];
      if addr == 0 {
        Unserved(fb, live, lo, hi, sz, p);
      } else {
        if sz > 0 && SafeSize(sz, p) {
          AllocSafe(fb, live, lo, hi, sz, p);
        }
        live := live + {Block(addr, sz)};
      }
    }

    /** Returns a block; -1, with nothing changed, when no slot can take it. Addresses are not
        checked: whatever is given enters the table; a live block keeps the allocator valid. */
    method Release(addr: u32, sz: u32) returns (rc: int)
      requires freeBlocks.Length == MAX_BLOCKS
      modifies this`live, freeBlocks
      ensures (rc, freeBlocks[..]) == Free(old(freeBlocks[..]), addr, sz)
      ensures live == if rc == 0 then old(live) - {Block(addr, sz)} else old(live)
      ensures old(Valid()) && Block(addr, sz) in old(live) ==>
                Valid() && (rc, State()) == old(State()).Give(Block(addr, sz))
    {
      hide Tiling;
      ghost var fb := freeBlocks[..];
      if Valid() && Block(addr, sz) in live {
        FreeSafe(fb, live, lo, hi, Block(addr, sz));
      }
      var i := FindAdjacent(addr, sz);
      if i < MAX_BLOCKS && (freeBlocks[i].addr - sz) % WORD == addr {
        freeBlocks[i] := Block((freeBlocks[i].addr - sz) % WORD, (freeBlocks[i].size + sz) % WORD);
      } else {
        i := FindUnused();
        if i == MAX_BLOCKS {
          return -1;
        }
        freeBlocks[i] := Block(addr, sz);
      }
      assert freeBlocks[..] == Free(fb, addr, sz).1;
      live := live - {Block(addr, sz)};
      rc := 0;
    }
  }

  /** A slot that is chosen holds a block. */
  lemma Unserved(fb: seq<Block>, live: set<Block>, lo: int, hi: int, sz: u32, p: nat)
    requires Tiling(fb, live, lo, hi) && 0 < p && WORD % p == 0
    requires Choose(fb, sz, p).From? && Alloc(fb, sz, p).0 == 0
    ensures !(sz > 0 && SafeSize(sz, p))
  {
    hide Tiling;
    if sz > 0 && SafeSize(sz, p) {
      ChosenBlock(fb, live, lo, hi, sz, p);
    }
  }
}
