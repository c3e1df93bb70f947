/** The word-at-a-time accumulation of `calculate_ecc` against the byte-wise parities. */
module EccWords {
  import opened EccParity

  /** Little-endian word `n` of a block. */
  function Word(s: seq<bv8>, n: nat): bv32
    requires 4 * n + 4 <= |s|
  {
    Join(s[4 * n], s[4 * n + 1], s[4 * n + 2], s[4 * n + 3])
  }

  function Join(b0: bv8, b1: bv8, b2: bv8, b3: bv8): bv32
  {
    (b0 as bv32) | (b1 as bv32 << 8) | (b2 as bv32 << 16) | (b3 as bv32 << 24)
  }

  function Xor32(x: bv32, y: bv32): bv32 { x ^ y }

  /** Exclusive or of the selected words `lo` to `hi - 1`. */
  function XorWords(s: seq<bv8>, sel: Sel, lo: nat, hi: nat): bv32
    requires lo <= hi && 4 * hi <= |s|
    decreases hi
  {
    if hi == lo then 0
    else Xor32(XorWords(s, sel, lo, hi - 1), if sel.Takes(hi - 1) then Word(s, hi - 1) else 0)
  }

  lemma {:induction false} XorSplit(s: seq<bv8>, sel: Sel, lo: nat, mid: nat, hi: nat)
    requires lo <= mid <= hi && 4 * hi <= |s|
    ensures XorWords(s, sel, lo, hi) == Xor32(XorWords(s, sel, lo, mid), XorWords(s, sel, mid, hi))
    decreases hi
  {
    hide Word, Xor32, Sel.Takes;
    if mid == hi {
      XorZero(XorWords(s, sel, lo, mid));
    } else {
      XorSplit(s, sel, lo, mid, hi - 1);
      var term := if sel.Takes(hi - 1) then Word(s, hi - 1) else 0;
      XorAssoc(XorWords(s, sel, lo, mid), XorWords(s, sel, mid, hi - 1), term);
    }
  }

  lemma XorZero(x: bv32)
    ensures Xor32(x, 0) == x
  {
  }

  lemma XorAssoc(x: bv32, y: bv32, z: bv32)
    ensures Xor32(Xor32(x, y), z) == Xor32(x, Xor32(y, z))
  {
  }

  lemma {:induction false} XorAllTaken(s: seq<bv8>, sel: Sel, lo: nat, hi: nat)
    requires lo <= hi && 4 * hi <= |s| && forall n: nat | lo <= n < hi :: sel.Takes(n)
    ensures XorWords(s, sel, lo, hi) == XorWords(s, All, lo, hi)
    decreases hi
  {
    hide Word, Xor32, AddrBit;
    if lo < hi {
      XorAllTaken(s, sel, lo, hi - 1);
    }
  }

  lemma {:induction false} XorNoneTaken(s: seq<bv8>, sel: Sel, lo: nat, hi: nat)
    requires lo <= hi && 4 * hi <= |s| && forall n: nat | lo <= n < hi :: !sel.Takes(n)
    ensures XorWords(s, sel, lo, hi) == 0
    decreases hi
  {
    hide Word, Xor32, AddrBit;
    if lo < hi {
      XorNoneTaken(s, sel, lo, hi - 1);
      XorZero(0);
    }
  }

  /** What an even row parity, or all of them, has accumulated after `n` words. */
  function Acc(s: seq<bv8>, sel: Sel, n: nat): bv32
    requires 4 * n <= |s|
  {
    XorWords(s, sel, 0, n)
  }

  function Even(k: nat): Sel { Row(k, false) }

  lemma NumberBits(i: nat, j: nat)
    requires j < 16
    ensures AddrBit(16 * i + j, 0) <==> j % 2 == 1
    ensures AddrBit(16 * i + j, 1) <==> j / 2 % 2 == 1
    ensures AddrBit(16 * i + j, 2) <==> j / 4 % 2 == 1
    ensures AddrBit(16 * i + j, 3) <==> j / 8 == 1
  {
    hide AddrBit;
    BitOfSum(8 * i, j, 0);
    BitOfSum(8 * i, j, 1);
    BitOfSum(4 * i, j / 2, 0);
    BitOfSum(8 * i, j, 2);
    BitOfSum(4 * i, j / 2, 1);
    BitOfSum(2 * i, j / 4, 0);
    BitOfSum(8 * i, j, 3);
    BitOfSum(4 * i, j / 2, 2);
    BitOfSum(2 * i, j / 4, 1);
    BitOfSum(i, j / 8, 0);
    assert j / 2 / 2 == j / 4 && j / 4 / 2 == j / 8;
  }

  lemma BitOfSum(m: nat, r: nat, k: nat)
    ensures k == 0 ==> (AddrBit(2 * m + r, k) <==> r % 2 == 1)
    ensures k > 0 ==> (AddrBit(2 * m + r, k) <==> AddrBit(m + r / 2, k - 1))
  {
    assert (2 * m + r) / 2 == m + r / 2 && (2 * m + r) % 2 == r % 2;
  }

  lemma ZeroBit(n: nat)
    ensures AddrBit(n, 0) <==> n % 2 == 1
  {
  }

  lemma HalfBits(n: nat, k: nat, h: nat)
    requires k > 0 && 2 * h <= n < 2 * h + 2
    ensures AddrBit(n, k) <==> AddrBit(h, k - 1)
  {
    assert n / 2 == h;
  }

  lemma HighNumberBits(i: nat, j: nat, k: nat)
    requires j < 16
    ensures AddrBit(16 * i + j, k + 4) == AddrBit(i, k)
  {
    hide AddrBit;
    HalfBits(16 * i + j, k + 4, 8 * i + j / 2);
    HalfBits(8 * i + j / 2, k + 3, 4 * i + j / 4);
    HalfBits(4 * i + j / 4, k + 2, 2 * i + j / 8);
    HalfBits(2 * i + j / 8, k + 1, i);
  }

  /** One more word in an accumulator. */
  lemma AccStep(s: seq<bv8>, sel: Sel, lo: nat, n: nat, takes: bool)
    requires lo <= n && 4 * n + 4 <= |s| && sel.Takes(n) == takes
    ensures XorWords(s, sel, lo, n + 1)
            == if takes then Xor32(XorWords(s, sel, lo, n), Word(s, n)) else XorWords(s, sel, lo, n)
  {
    hide Word, Xor32, Sel.Takes;
    XorZero(XorWords(s, sel, lo, n));
  }

  /** Word `j` of chunk `i`. */
  function W(s: seq<bv8>, i: nat, j: nat): bv32
    requires j < 16 && 64 * i + 64 <= |s|
  {
    Word(s, 16 * i + j)
  }

  /** What the even parity of address bit `k` has taken after `j` words of chunk `i`. */
  function Part(s: seq<bv8>, k: nat, i: nat, j: nat): bv32
    requires j <= 16 && 64 * i + 64 <= |s|
  {
    Acc(s, Even(k), 16 * i + j)
  }

  /** The running parity of chunk `i` after `j` words. */
  function Run(s: seq<bv8>, i: nat, j: nat): bv32
    requires j <= 16 && 64 * i + 64 <= |s|
  {
    XorWords(s, All, 16 * i, 16 * i + j)
  }

  lemma PartStep(s: seq<bv8>, k: nat, i: nat, j: nat, takes: bool)
    requires j < 16 && 64 * i + 64 <= |s| && k < 4
    requires takes <==>
               (if k == 0 then j % 2 else if k == 1 then j / 2 % 2 else if k == 2 then j / 4 % 2 else j / 8) == 0
    ensures Part(s, k, i, j + 1) == if takes then Xor32(Part(s, k, i, j), W(s, i, j)) else Part(s, k, i, j)
  {
    hide Word, AddrBit, Xor32, XorWords;
    NumberBits(i, j);
    AccStep(s, Even(k), 0, 16 * i + j, takes);
  }

  lemma RunStep(s: seq<bv8>, i: nat, j: nat)
    requires j < 16 && 64 * i + 64 <= |s|
    ensures Run(s, i, j + 1) == Xor32(Run(s, i, j), W(s, i, j))
  {
    hide Word, AddrBit, Xor32, XorWords;
    AccStep(s, All, 16 * i, 16 * i + j, true);
  }

  /** The first two, four, eight words of a chunk. */
  lemma Runs(s: seq<bv8>, i: nat)
    requires 64 * i + 64 <= |s|
    ensures Run(s, i, 2) == Xor32(W(s, i, 0), W(s, i, 1))
    ensures Run(s, i, 4) == Xor32(Xor32(Run(s, i, 2), W(s, i, 2)), W(s, i, 3))
    ensures Run(s, i, 8) == Xor32(Xor32(Xor32(Xor32(Run(s, i, 4), W(s, i, 4)), W(s, i, 5)), W(s, i, 6)), W(s, i, 7))
    ensures var x := Xor32(Xor32(Xor32(Xor32(Run(s, i, 8), W(s, i, 8)), W(s, i, 9)), W(s, i, 10)), W(s, i, 11));
            Run(s, i, 16) == Xor32(Xor32(Xor32(Xor32(x, W(s, i, 12)), W(s, i, 13)), W(s, i, 14)), W(s, i, 15))
  {
    hide Word, Xor32, Run, W;
    RunStart(s, i);
    RunStep(s, i, 1);
    RunStep(s, i, 2);
    RunStep(s, i, 3);
    RunStep(s, i, 4);
    RunStep(s, i, 5);
    RunStep(s, i, 6);
    RunStep(s, i, 7);
    RunStep(s, i, 8);
    RunStep(s, i, 9);
    RunStep(s, i, 10);
    RunStep(s, i, 11);
    RunStep(s, i, 12);
    RunStep(s, i, 13);
    RunStep(s, i, 14);
    RunStep(s, i, 15);
  }

  /** What each accumulator takes from one chunk, in the order the loop does. */
  lemma Chunk4(s: seq<bv8>, i: nat)
    requires 64 * i + 64 <= |s|
    ensures var x := Xor32(Xor32(Xor32(Xor32(Part(s, 0, i, 0), W(s, i, 0)), W(s, i, 2)), W(s, i, 4)), W(s, i, 6));
            Part(s, 0, i, 16) == Xor32(Xor32(Xor32(Xor32(x, W(s, i, 8)), W(s, i, 10)), W(s, i, 12)), W(s, i, 14))
  {
    hide Word, Xor32, Part, W;
    PartStep(s, 0, i, 0, true);
    PartStep(s, 0, i, 1, false);
    PartStep(s, 0, i, 2, true);
    PartStep(s, 0, i, 3, false);
    PartStep(s, 0, i, 4, true);
    PartStep(s, 0, i, 5, false);
    PartStep(s, 0, i, 6, true);
    PartStep(s, 0, i, 7, false);
    PartStep(s, 0, i, 8, true);
    PartStep(s, 0, i, 9, false);
    PartStep(s, 0, i, 10, true);
    PartStep(s, 0, i, 11, false);
    PartStep(s, 0, i, 12, true);
    PartStep(s, 0, i, 13, false);
    PartStep(s, 0, i, 14, true);
    PartStep(s, 0, i, 15, false);
  }

  lemma Chunk6(s: seq<bv8>, i: nat)
    requires 64 * i + 64 <= |s|
    ensures var x := Xor32(Xor32(Xor32(Part(s, 1, i, 0), Run(s, i, 2)), W(s, i, 4)), W(s, i, 5));
            Part(s, 1, i, 16) == Xor32(Xor32(Xor32(Xor32(x, W(s, i, 8)), W(s, i, 9)), W(s, i, 12)), W(s, i, 13))
  {
    hide Word, Xor32, Part, W, Run;
    FirstWords(s, i, 1, 2);
    PartStep(s, 1, i, 2, false);
    PartStep(s, 1, i, 3, false);
    PartStep(s, 1, i, 4, true);
    PartStep(s, 1, i, 5, true);
    PartStep(s, 1, i, 6, false);
    PartStep(s, 1, i, 7, false);
    PartStep(s, 1, i, 8, true);
    PartStep(s, 1, i, 9, true);
    PartStep(s, 1, i, 10, false);
    PartStep(s, 1, i, 11, false);
    PartStep(s, 1, i, 12, true);
    PartStep(s, 1, i, 13, true);
    PartStep(s, 1, i, 14, false);
    PartStep(s, 1, i, 15, false);
  }

  lemma Chunk8(s: seq<bv8>, i: nat)
    requires 64 * i + 64 <= |s|
    ensures var x := Xor32(Part(s, 2, i, 0), Run(s, i, 4));
            Part(s, 2, i, 16) == Xor32(Xor32(Xor32(Xor32(x, W(s, i, 8)), W(s, i, 9)), W(s, i, 10)), W(s, i, 11))
  {
    hide Word, Xor32, Part, W, Run;
    FirstWords(s, i, 2, 4);
    PartStep(s, 2, i, 4, false);
    PartStep(s, 2, i, 5, false);
    PartStep(s, 2, i, 6, false);
    PartStep(s, 2, i, 7, false);
    PartStep(s, 2, i, 8, true);
    PartStep(s, 2, i, 9, true);
    PartStep(s, 2, i, 10, true);
    PartStep(s, 2, i, 11, true);
    PartStep(s, 2, i, 12, false);
    PartStep(s, 2, i, 13, false);
    PartStep(s, 2, i, 14, false);
    PartStep(s, 2, i, 15, false);
  }

  lemma Chunk10(s: seq<bv8>, i: nat)
    requires 64 * i + 64 <= |s|
    ensures Part(s, 3, i, 16) == Xor32(Part(s, 3, i, 0), Run(s, i, 8))
  {
    hide Word, Xor32, Part, W, Run;
    FirstWords(s, i, 3, 8);
    PartStep(s, 3, i, 8, false);
    PartStep(s, 3, i, 9, false);
    PartStep(s, 3, i, 10, false);
    PartStep(s, 3, i, 11, false);
    PartStep(s, 3, i, 12, false);
    PartStep(s, 3, i, 13, false);
    PartStep(s, 3, i, 14, false);
    PartStep(s, 3, i, 15, false);
  }

  lemma RunStart(s: seq<bv8>, i: nat)
    requires 64 * i + 64 <= |s|
    ensures Run(s, i, 1) == W(s, i, 0)
  {
    hide Word, Xor32;
    var none := XorWords(s, All, 16 * i, 16 * i);
    assert Xor32(0, Word(s, 16 * i)) == Word(s, 16 * i) by { ZeroFirst(Word(s, 16 * i)); }
  }

  lemma ZeroFirst(x: bv32)
    ensures Xor32(0, x) == x
  {
  }

  /** The first words of a chunk are taken together, through the chunk's running parity. */
  lemma FirstWords(s: seq<bv8>, i: nat, k: nat, m: nat)
    requires (k == 1 && m == 2) || (k == 2 && m == 4) || (k == 3 && m == 8)
    requires 64 * i + 64 <= |s|
    ensures Part(s, k, i, m) == Xor32(Part(s, k, i, 0), Run(s, i, m))
  {
    hide Word, AddrBit, XorWords, Xor32;
    forall n: nat | 16 * i <= n < 16 * i + m
      ensures Even(k).Takes(n)
    {
      NumberBits(i, n - 16 * i);
    }
    XorSplit(s, Even(k), 0, 16 * i, 16 * i + m);
    XorAllTaken(s, Even(k), 16 * i, 16 * i + m);
  }

  /** A whole chunk is taken, or not, by the parities of higher address bits. */
  lemma WholeChunk(s: seq<bv8>, i: nat, k: nat)
    requires 64 * i + 64 <= |s|
    ensures Acc(s, Even(k + 4), 16 * i + 16)
            == if AddrBit(i, k) then Acc(s, Even(k + 4), 16 * i)
               else Xor32(Acc(s, Even(k + 4), 16 * i), XorWords(s, All, 16 * i, 16 * i + 16))
  {
    hide Word, AddrBit, XorWords, Xor32;
    var high := Even(k + 4);
    forall n: nat | 16 * i <= n < 16 * i + 16
      ensures high.Takes(n) == !AddrBit(i, k)
    {
      HighNumberBits(i, n - 16 * i, k);
    }
    XorSplit(s, Even(k + 4), 0, 16 * i, 16 * i + 16);
    if AddrBit(i, k) {
      XorNoneTaken(s, Even(k + 4), 16 * i, 16 * i + 16);
      XorZero(Acc(s, Even(k + 4), 16 * i));
    } else {
      XorAllTaken(s, Even(k + 4), 16 * i, 16 * i + 16);
    }
  }

  lemma WholeAll(s: seq<bv8>, i: nat)
    requires 64 * i + 64 <= |s|
    ensures Acc(s, All, 16 * i + 16) == Xor32(Acc(s, All, 16 * i), XorWords(s, All, 16 * i, 16 * i + 16))
  {
    hide Word, AddrBit, XorWords, Xor32;
    XorSplit(s, All, 0, 16 * i, 16 * i + 16);
  }

  /** Byte lane `r` of a word. */
  function Lane(w: bv32, r: nat): bv8
    requires r < 4
  {
    if r == 0 then (w & 0xff) as bv8
    else if r == 1 then ((w >> 8) & 0xff) as bv8
    else if r == 2 then ((w >> 16) & 0xff) as bv8
    else ((w >> 24) & 0xff) as bv8
  }

  lemma LaneLinear(x: bv32, y: bv32, r: nat)
    requires r < 4
    ensures Lane(Xor32(x, y), r) == Xor8(Lane(x, r), Lane(y, r))
  {
    if r == 0 {
    } else if r == 1 {
    } else if r == 2 {
    } else {
    }
  }

  lemma LaneOfJoin(b0: bv8, b1: bv8, b2: bv8, b3: bv8, r: nat)
    requires r < 4
    ensures Lane(Join(b0, b1, b2, b3), r) == [b0, b1, b2, b3][r]
  {
    if r == 0 {
    } else if r == 1 {
    } else if r == 2 {
    } else {
    }
  }

  /** The folds: a word to the parity of all four bytes, or of the upper, lower, odd or even
      two. */
  function Fold(w: bv32): bv8
  {
    var a := w ^ (w >> 16);
    var b := a ^ (a >> 8);
    (b & 0xff) as bv8
  }

  function FoldHigh(w: bv32): bv8
  {
    var a := w >> 16;
    ((a ^ (a >> 8)) & 0xff) as bv8
  }

  function FoldLow(w: bv32): bv8
  {
    var a := w & 0xffff;
    ((a ^ (a >> 8)) & 0xff) as bv8
  }

  function FoldOdd(w: bv32): bv8
  {
    (((w ^ (w >> 16)) >> 8) & 0xff) as bv8
  }

  function FoldEven(w: bv32): bv8
  {
    ((w ^ (w >> 16)) & 0xff) as bv8
  }

  lemma FoldLanes(w: bv32)
    ensures Fold(w) == Xor8(Xor8(Lane(w, 0), Lane(w, 2)), Xor8(Lane(w, 1), Lane(w, 3)))
  {
  }

  lemma FoldHighLanes(w: bv32)
    ensures FoldHigh(w) == Xor8(Lane(w, 2), Lane(w, 3))
  {
  }

  lemma FoldLowLanes(w: bv32)
    ensures FoldLow(w) == Xor8(Lane(w, 0), Lane(w, 1))
  {
  }

  lemma FoldOddLanes(w: bv32)
    ensures FoldOdd(w) == Xor8(Lane(w, 1), Lane(w, 3))
  {
  }

  lemma FoldEvenLanes(w: bv32)
    ensures FoldEven(w) == Xor8(Lane(w, 0), Lane(w, 2))
  {
  }
}
