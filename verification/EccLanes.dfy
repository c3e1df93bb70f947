/** From accumulated words to row and column parities of the bytes. */
module EccLanes {
  import opened EccParity
  import opened EccWords

  lemma {:induction false} XorSame(block: seq<bv8>, a: Sel, b: Sel)
    requires forall i: nat | i < |block| :: a.Takes(i) == b.Takes(i)
    ensures XorOf(block, a) == XorOf(block, b)
  {
    hide Sel.Takes, Xor8;
    if |block| > 0 {
      XorSame(block[..|block| - 1], a, b);
    }
  }

  lemma Medial(a: bv8, b: bv8, c: bv8, d: bv8)
    ensures Xor8(Xor8(a, b), Xor8(c, d)) == Xor8(Xor8(a, c), Xor8(b, d))
  {
    hide Xor8;
    ByteAssociates(a, b, Xor8(c, d));
    ByteAssociates(b, c, d);
    ByteCommutes(b, c);
    ByteAssociates(c, b, d);
    ByteAssociates(a, c, Xor8(b, d));
  }

  /** Addresses of one kind or another, never both: the parities add up. */
  lemma {:induction false} XorEither(block: seq<bv8>, a: Sel, b: Sel)
    requires forall i: nat | i < |block| :: !(a.Takes(i) && b.Takes(i))
    ensures XorOf(block, Either(a, b)) == Xor8(XorOf(block, a), XorOf(block, b))
  {
    hide Xor8, AddrBit;
    if |block| == 0 {
      assert Xor8(0, 0) == 0 by { ZeroXor(0); }
    } else {
      var m := |block| - 1;
      XorEither(block[..m], a, b);
      var ta, tb := if a.Takes(m) then block[m] else 0, if b.Takes(m) then block[m] else 0;
      Medial(XorOf(block[..m], a), XorOf(block[..m], b), ta, tb);
      ZeroXor(block[m]);
      ZeroXor(0);
      assert Xor8(ta, tb) == if Either(a, b).Takes(m) then block[m] else 0;
    }
  }

  lemma ZeroXor(x: bv8)
    ensures Xor8(x, 0) == x && Xor8(0, x) == x
  {
  }

  /** The two parities of an address bit add up to the parity of everything. */
  lemma Complement(block: seq<bv8>, k: nat)
    ensures XorOf(block, Row(k, true)) == Xor8(XorOf(block, All), XorOf(block, Row(k, false)))
  {
    hide Xor8, AddrBit, XorOf;
    XorEither(block, Row(k, true), Row(k, false));
    XorSame(block, Either(Row(k, true), Row(k, false)), All);
    Undo(XorOf(block, Row(k, true)), XorOf(block, Row(k, false)));
  }

  lemma Undo(x: bv8, y: bv8)
    ensures Xor8(Xor8(x, y), y) == x
  {
  }

  lemma OneMore(s: seq<bv8>, sel: Sel, m: nat)
    requires m < |s|
    ensures XorOf(s[..m + 1], sel) == if sel.Takes(m) then Xor8(XorOf(s[..m], sel), s[m]) else XorOf(s[..m], sel)
  {
    hide Sel.Takes, Xor8;
    assert s[..m + 1][..m] == s[..m];
    ZeroXor(XorOf(s[..m], sel));
  }

  /** Four more bytes, of which a lane takes at most one. */
  lemma LaneStep(s: seq<bv8>, w: Sel, r: nat, n: nat)
    requires r < 4 && 4 * n + 4 <= |s|
    ensures XorOf(s[..4 * n + 4], OfLane(r, w))
            == if w.Takes(n) then Xor8(XorOf(s[..4 * n], OfLane(r, w)), s[4 * n + r])
               else XorOf(s[..4 * n], OfLane(r, w))
  {
    hide Xor8, XorOf, AddrBit;
    var m := 4 * n;
    assert m / 4 == n && (m + 1) / 4 == n && (m + 2) / 4 == n && (m + 3) / 4 == n;
    OneMore(s, OfLane(r, w), m);
    OneMore(s, OfLane(r, w), m + 1);
    OneMore(s, OfLane(r, w), m + 2);
    OneMore(s, OfLane(r, w), m + 3);
  }

  /** A byte lane of the accumulated words. */
  lemma {:induction false} LaneOfWords(s: seq<bv8>, w: Sel, r: nat, n: nat)
    requires r < 4 && 4 * n <= |s|
    ensures Lane(XorWords(s, w, 0, n), r) == XorOf(s[..4 * n], OfLane(r, w))
    decreases n
  {
    hide Lane, Xor8, Xor32, Sel.Takes, Join;
    if n == 0 {
      LaneOfZero(r);
    } else {
      var i := n - 1;
      LaneOfWords(s, w, r, i);
      LaneStep(s, w, r, i);
      AccStep(s, w, 0, i, w.Takes(i));
      LaneLinear(XorWords(s, w, 0, i), Word(s, i), r);
      LaneOfJoin(s[4 * i], s[4 * i + 1], s[4 * i + 2], s[4 * i + 3], r);
    }
  }

  lemma LaneOfZero(r: nat)
    requires r < 4
    ensures Lane(0, r) == 0
  {
  }

  lemma TwoLanes(s: seq<bv8>, w: Sel, n: nat, p: nat, q: nat)
    requires p < 4 && q < 4 && p != q && |s| == 4 * n
    ensures Xor8(Lane(XorWords(s, w, 0, n), p), Lane(XorWords(s, w, 0, n), q))
            == XorOf(s, Either(OfLane(p, w), OfLane(q, w)))
  {
    hide Lane, Xor8, XorWords, XorOf, AddrBit;
    LaneOfWords(s, w, p, n);
    LaneOfWords(s, w, q, n);
    assert s[..4 * n] == s;
    XorEither(s, OfLane(p, w), OfLane(q, w));
  }

  function EvenLanes(w: Sel): Sel { Either(OfLane(0, w), OfLane(2, w)) }

  function OddLanes(w: Sel): Sel { Either(OfLane(1, w), OfLane(3, w)) }

  lemma LanesPartition(w: Sel, i: nat)
    ensures !(EvenLanes(w).Takes(i) && OddLanes(w).Takes(i))
    ensures Either(EvenLanes(w), OddLanes(w)).Takes(i) == w.Takes(i / 4)
  {
    hide AddrBit;
    var r := i % 4;
    assert r == 0 || r == 1 || r == 2 || r == 3;
    assert EvenLanes(w).Takes(i) == ((r == 0 || r == 2) && w.Takes(i / 4));
    assert OddLanes(w).Takes(i) == ((r == 1 || r == 3) && w.Takes(i / 4));
  }

  /** All four lanes folded: the parity of every byte of the selected words. */
  lemma FoldedWords(s: seq<bv8>, w: Sel, n: nat, sel: Sel)
    requires |s| == 4 * n && forall i: nat | i < |s| :: sel.Takes(i) == w.Takes(i / 4)
    ensures Fold(XorWords(s, w, 0, n)) == XorOf(s, sel)
  {
    hide Lane, Xor8, XorWords, XorOf, Sel.Takes, Fold;
    FoldLanes(XorWords(s, w, 0, n));
    TwoLanes(s, w, n, 0, 2);
    TwoLanes(s, w, n, 1, 3);
    forall i: nat | i < |s|
      ensures !(EvenLanes(w).Takes(i) && OddLanes(w).Takes(i))
      ensures Either(EvenLanes(w), OddLanes(w)).Takes(i) == sel.Takes(i)
    {
      LanesPartition(w, i);
    }
    XorEither(s, EvenLanes(w), OddLanes(w));
    XorSame(s, Either(EvenLanes(w), OddLanes(w)), sel);
  }

  /** The accumulators for address bits 2 and up. */
  lemma RowFolded(s: seq<bv8>, k: nat, n: nat)
    requires |s| == 4 * n
    ensures Fold(Acc(s, Even(k), n)) == XorOf(s, Row(k + 2, false))
  {
    hide Fold, XorOf, XorWords;
    forall i: nat | i < |s|
      ensures AddrBit(i, k + 2) == AddrBit(i / 4, k)
    {
      hide AddrBit;
      HalfBits(i, k + 2, i / 2);
      HalfBits(i / 2, k + 1, i / 4);
    }
    FoldedWords(s, Even(k), n, Row(k + 2, false));
  }

  lemma AllFolded(s: seq<bv8>, n: nat)
    requires |s| == 4 * n
    ensures Fold(Acc(s, All, n)) == XorOf(s, All)
  {
    hide Fold, XorOf, XorWords;
    FoldedWords(s, All, n, All);
  }

  /** The parities for address bits 0 and 1, from the lanes of the whole. */
  lemma LowRowsFolded(s: seq<bv8>, n: nat)
    requires |s| == 4 * n
    ensures FoldHigh(Acc(s, All, n)) == XorOf(s, Row(1, true)) && FoldLow(Acc(s, All, n)) == XorOf(s, Row(1, false))
    ensures FoldOdd(Acc(s, All, n)) == XorOf(s, Row(0, true)) && FoldEven(Acc(s, All, n)) == XorOf(s, Row(0, false))
  {
    hide FoldHigh, FoldLow, FoldOdd, FoldEven, Lane, Xor8, XorOf, XorWords, AddrBit;
    var x := Acc(s, All, n);
    FoldHighLanes(x);
    FoldLowLanes(x);
    FoldOddLanes(x);
    FoldEvenLanes(x);
    LanesAreRow(s, n, 2, 3, 1, true);
    LanesAreRow(s, n, 0, 1, 1, false);
    LanesAreRow(s, n, 1, 3, 0, true);
    LanesAreRow(s, n, 0, 2, 0, false);
  }

  lemma LanesAreRow(s: seq<bv8>, n: nat, p: nat, q: nat, k: nat, v: bool)
    requires |s| == 4 * n
    requires (p, q, k, v) in {(2, 3, 1, true), (0, 1, 1, false), (1, 3, 0, true), (0, 2, 0, false)}
    ensures Xor8(Lane(Acc(s, All, n), p), Lane(Acc(s, All, n), q)) == XorOf(s, Row(k, v))
  {
    hide Lane, Xor8, XorOf, XorWords, AddrBit;
    TwoLanes(s, All, n, p, q);
    forall i: nat | i < |s|
      ensures Either(OfLane(p, All), OfLane(q, All)).Takes(i) == Row(k, v).Takes(i)
    {
      ZeroBit(i);
      HalfBits(i, 1, i / 2);
      ZeroBit(i / 2);
    }
    XorSame(s, Either(OfLane(p, All), OfLane(q, All)), Row(k, v));
  }
}
