/** The parity code of lib/ecc.c as a linear function of the block, and what its syndromes
    say about flipped bits. */
module EccParity {
  import opened EccTables

  /** Bit `k` of an address. */
  predicate AddrBit(i: nat, k: nat)
  {
    if k == 0 then i % 2 == 1 else AddrBit(i / 2, k - 1)
  }

  /** The addresses a parity looks at: all; those whose bit `k` is `v`; byte `r` of the selected
      words; either of two kinds. */
  datatype Sel = All | Row(k: nat, v: bool) | OfLane(r: nat, words: Sel) | Either(a: Sel, b: Sel) {
    predicate Takes(i: nat)
      decreases this
    {
      match this
      case All => true
      case Row(k, v) => AddrBit(i, k) == v
      case OfLane(r, words) => i % 4 == r && words.Takes(i / 4)
      case Either(a, b) => a.Takes(i) || b.Takes(i)
    }
  }

  function Xor8(x: bv8, y: bv8): bv8 { x ^ y }

  function OddMasked(x: bv8, mask: bv8): bool { Odd(x & mask) }

  /** Exclusive or of the selected bytes. */
  function XorOf(block: seq<bv8>, sel: Sel): bv8
  {
    if |block| == 0 then 0
    else
      var last := |block| - 1;
      Xor8(XorOf(block[..last], sel), if sel.Takes(last) then block[last] else 0)
  }

  /** Row parity `rp(2k + v)` and column parity over the bit positions in `mask`, as stored:
      true for an even number of ones. */
  function Rp(block: seq<bv8>, k: nat, v: bool): bool { EvenOnes(XorOf(block, Row(k, v))) }

  function Cp(block: seq<bv8>, mask: bv8): bool { !OddMasked(XorOf(block, All), mask) }

  predicate EvenOnes(b: bv8) { !Odd(b) }

  /** `rp16` and `rp17`; ones when the block has no address bit 8. */
  function HighRp(block: seq<bv8>, wide: bool, v: bool): bool { wide ==> Rp(block, 8, v) }

  function Pack(b7: bool, b6: bool, b5: bool, b4: bool, b3: bool, b2: bool, b1: bool, b0: bool): bv8
  {
    (if b7 then 0x80 else 0) | (if b6 then 0x40 else 0) | (if b5 then 0x20 else 0) | (if b4 then 0x10 else 0)
    | (if b3 then 8 else 0) | (if b2 then 4 else 0) | (if b1 then 2 else 0) | (if b0 then 1 else 0)
  }

  lemma PackBits(b7: bool, b6: bool, b5: bool, b4: bool, b3: bool, b2: bool, b1: bool, b0: bool)
    ensures var b := Pack(b7, b6, b5, b4, b3, b2, b1, b0);
            && Has(b, 0x80) == b7 && Has(b, 0x40) == b6 && Has(b, 0x20) == b5 && Has(b, 0x10) == b4
            && Has(b, 8) == b3 && Has(b, 4) == b2 && Has(b, 2) == b1 && Has(b, 1) == b0
  {
  }

  /** A byte of row parities for address bits `k` to `k + 3`, high bit first. */
  function RpByte(block: seq<bv8>, k: nat): bv8
  {
    Pack(Rp(block, k + 3, true), Rp(block, k + 3, false), Rp(block, k + 2, true), Rp(block, k + 2, false),
         Rp(block, k + 1, true), Rp(block, k + 1, false), Rp(block, k, true), Rp(block, k, false))
  }

  /** The byte of column parities; its low bits are `rp17` and `rp16` for a 512-byte block and
      ones for a 256-byte block. */
  function CpByte(block: seq<bv8>, wide: bool): bv8
  {
    Pack(Cp(block, 0xf0), Cp(block, 0x0f), Cp(block, 0xcc), Cp(block, 0x33), Cp(block, 0xaa), Cp(block, 0x55),
         HighRp(block, wide, true), HighRp(block, wide, false))
  }

  /** A code: `code[0]`, `code[1]`, `code[2]`. */
  datatype Code = Code(c0: bv8, c1: bv8, c2: bv8) {
    function Xor(o: Code): Code { Code(Xor8(c0, o.c0), Xor8(c1, o.c1), Xor8(c2, o.c2)) }
  }

  function CodeOf(block: seq<bv8>, wide: bool): Code
  {
    Code(RpByte(block, 4), RpByte(block, 0), CpByte(block, wide))
  }

  function Mask(c: nat): bv8
    requires c < 8
  {
    if c == 0 then 1 else if c == 1 then 2 else if c == 2 then 4 else if c == 3 then 8
    else if c == 4 then 0x10 else if c == 5 then 0x20 else if c == 6 then 0x40 else 0x80
  }

  function Flip(block: seq<bv8>, a: nat, c: nat): (r: seq<bv8>)
    requires a < |block| && c < 8
    ensures |r| == |block|
  {
    block[a := Xor8(block[a], Mask(c))]
  }

  lemma {:induction false} FlipXor(block: seq<bv8>, sel: Sel, a: nat, c: nat)
    requires a < |block| && c < 8
    ensures XorOf(Flip(block, a, c), sel) == Xor8(XorOf(block, sel), if sel.Takes(a) then Mask(c) else 0)
  {
    hide AddrBit, Xor8, Mask, Sel.Takes;
    var last := |block| - 1;
    var flipped := Flip(block, a, c);
    if a == last {
      assert flipped[..last] == block[..last];
      XorTail(XorOf(block[..last], sel), block[a], Mask(c), sel.Takes(a));
    } else {
      FlipXor(block[..last], sel, a, c);
      assert flipped[..last] == Flip(block[..last], a, c);
      XorSwap(XorOf(block[..last], sel), if sel.Takes(a) then Mask(c) else 0,
              if sel.Takes(last) then block[last] else 0);
    }
  }

  lemma XorTail(x: bv8, b: bv8, m: bv8, takes: bool)
    ensures Xor8(x, if takes then Xor8(b, m) else 0) == Xor8(Xor8(x, if takes then b else 0), if takes then m else 0)
  {
  }

  lemma XorSwap(x: bv8, m: bv8, b: bv8)
    ensures Xor8(Xor8(x, m), b) == Xor8(Xor8(x, b), m)
  {
  }

  lemma ByteAssociates(p: bv8, q: bv8, r: bv8)
    ensures Xor8(Xor8(p, q), r) == Xor8(p, Xor8(q, r))
  {
  }

  lemma ByteCommutes(p: bv8, q: bv8)
    ensures Xor8(p, q) == Xor8(q, p)
  {
  }

  lemma OddOfXor(x: bv8, y: bv8)
    ensures Odd(Xor8(x, y)) == Xor(Odd(x), Odd(y))
  {
    hide Odd, Xor8, Has;
    var z := Xor8(x, y);
    BitsOfXor(x, y);
    OddBitwise(x, y, z);
  }

  lemma BitsOfXor(x: bv8, y: bv8)
    ensures var z := Xor8(x, y);
            && Has(z, 0x80) == Xor(Has(x, 0x80), Has(y, 0x80)) && Has(z, 0x40) == Xor(Has(x, 0x40), Has(y, 0x40))
            && Has(z, 0x20) == Xor(Has(x, 0x20), Has(y, 0x20)) && Has(z, 0x10) == Xor(Has(x, 0x10), Has(y, 0x10))
            && Has(z, 8) == Xor(Has(x, 8), Has(y, 8)) && Has(z, 4) == Xor(Has(x, 4), Has(y, 4))
            && Has(z, 2) == Xor(Has(x, 2), Has(y, 2)) && Has(z, 1) == Xor(Has(x, 1), Has(y, 1))
  {
  }

  lemma OddBitwise(x: bv8, y: bv8, z: bv8)
    requires Has(z, 0x80) == Xor(Has(x, 0x80), Has(y, 0x80)) && Has(z, 0x40) == Xor(Has(x, 0x40), Has(y, 0x40))
    requires Has(z, 0x20) == Xor(Has(x, 0x20), Has(y, 0x20)) && Has(z, 0x10) == Xor(Has(x, 0x10), Has(y, 0x10))
    requires Has(z, 8) == Xor(Has(x, 8), Has(y, 8)) && Has(z, 4) == Xor(Has(x, 4), Has(y, 4))
    requires Has(z, 2) == Xor(Has(x, 2), Has(y, 2)) && Has(z, 1) == Xor(Has(x, 1), Has(y, 1))
    ensures Odd(z) == Xor(Odd(x), Odd(y))
  {
    hide Has;
  }

  /** Flipping a bit toggles exactly the parities that look at it. */
  lemma RpToggles(block: seq<bv8>, k: nat, v: bool, a: nat, c: nat)
    requires a < |block| && c < 8
    ensures Rp(Flip(block, a, c), k, v) == Xor(Rp(block, k, v), AddrBit(a, k) == v)
  {
    hide Odd, XorOf, AddrBit, Flip, Xor8, Mask;
    FlipXor(block, Row(k, v), a, c);
    OddOfXor(XorOf(block, Row(k, v)), if Row(k, v).Takes(a) then Mask(c) else 0);
    assert Odd(Mask(c)) && !Odd(0) by { OneBit(c); }
  }

  lemma OneBit(c: nat)
    requires c < 8
    ensures Odd(Mask(c)) && !Odd(0)
  {
  }

  lemma CpToggles(block: seq<bv8>, mask: bv8, a: nat, c: nat)
    requires a < |block| && c < 8
    ensures Cp(Flip(block, a, c), mask) == Xor(Cp(block, mask), Has(mask, Mask(c)))
  {
    hide Odd, XorOf, Flip, Mask, Xor8, OddMasked;
    FlipXor(block, All, a, c);
    OddMaskedXor(XorOf(block, All), Mask(c), mask);
    OneBitMasked(c, mask);
  }

  lemma OddMaskedXor(x: bv8, y: bv8, mask: bv8)
    ensures OddMasked(Xor8(x, y), mask) == Xor(OddMasked(x, mask), OddMasked(y, mask))
  {
    hide Odd;
    assert (x ^ y) & mask == (x & mask) ^ (y & mask);
    OddOfXor(x & mask, y & mask);
  }

  lemma OneBitMasked(c: nat, mask: bv8)
    requires c < 8
    ensures OddMasked(Mask(c), mask) == Has(mask, Mask(c))
  {
  }

  /** What one flipped bit does to the code: for each address bit, of byte and of bit, one of
      the two parities of a pair toggles. */
  function Syndrome(a: nat, c: nat, wide: bool): Code
  {
    Code(PairByte(a, 4), PairByte(a, 0), LastByte(a, c, wide))
  }

  function PairByte(a: nat, k: nat): bv8
  {
    Pack(AddrBit(a, k + 3), !AddrBit(a, k + 3), AddrBit(a, k + 2), !AddrBit(a, k + 2),
         AddrBit(a, k + 1), !AddrBit(a, k + 1), AddrBit(a, k), !AddrBit(a, k))
  }

  function LastByte(a: nat, c: nat, wide: bool): bv8
  {
    Pack(AddrBit(c, 2), !AddrBit(c, 2), AddrBit(c, 1), !AddrBit(c, 1), AddrBit(c, 0), !AddrBit(c, 0),
         wide && AddrBit(a, 8), wide && !AddrBit(a, 8))
  }

  lemma SameBits(x: bv8, y: bv8)
    requires Has(x, 0x80) == Has(y, 0x80) && Has(x, 0x40) == Has(y, 0x40)
    requires Has(x, 0x20) == Has(y, 0x20) && Has(x, 0x10) == Has(y, 0x10)
    requires Has(x, 8) == Has(y, 8) && Has(x, 4) == Has(y, 4)
    requires Has(x, 2) == Has(y, 2) && Has(x, 1) == Has(y, 1)
    ensures x == y
  {
  }

  lemma PackXor(a7: bool, a6: bool, a5: bool, a4: bool, a3: bool, a2: bool, a1: bool, a0: bool,
                b7: bool, b6: bool, b5: bool, b4: bool, b3: bool, b2: bool, b1: bool, b0: bool)
    ensures Pack(Xor(a7, b7), Xor(a6, b6), Xor(a5, b5), Xor(a4, b4), Xor(a3, b3), Xor(a2, b2), Xor(a1, b1), Xor(a0, b0))
            == Xor8(Pack(a7, a6, a5, a4, a3, a2, a1, a0), Pack(b7, b6, b5, b4, b3, b2, b1, b0))
  {
    hide Pack, Xor8, Has;
    var x, y := Pack(a7, a6, a5, a4, a3, a2, a1, a0), Pack(b7, b6, b5, b4, b3, b2, b1, b0);
    PackBits(a7, a6, a5, a4, a3, a2, a1, a0);
    PackBits(b7, b6, b5, b4, b3, b2, b1, b0);
    PackBits(Xor(a7, b7), Xor(a6, b6), Xor(a5, b5), Xor(a4, b4), Xor(a3, b3), Xor(a2, b2), Xor(a1, b1), Xor(a0, b0));
    BitsOfXor(x, y);
    SameBits(Pack(Xor(a7, b7), Xor(a6, b6), Xor(a5, b5), Xor(a4, b4),
                  Xor(a3, b3), Xor(a2, b2), Xor(a1, b1), Xor(a0, b0)), Xor8(x, y));
  }

  lemma RpByteToggles(block: seq<bv8>, k: nat, a: nat, c: nat)
    requires a < |block| && c < 8
    ensures RpByte(Flip(block, a, c), k) == Xor8(RpByte(block, k), PairByte(a, k))
  {
    hide Rp, AddrBit, Pack, Flip, Xor8;
    forall j: nat, v | k <= j <= k + 3
      ensures Rp(Flip(block, a, c), j, v) == Xor(Rp(block, j, v), AddrBit(a, j) == v)
    {
      RpToggles(block, j, v, a, c);
    }
    PackXor(Rp(block, k + 3, true), Rp(block, k + 3, false), Rp(block, k + 2, true), Rp(block, k + 2, false),
            Rp(block, k + 1, true), Rp(block, k + 1, false), Rp(block, k, true), Rp(block, k, false),
            AddrBit(a, k + 3), !AddrBit(a, k + 3), AddrBit(a, k + 2), !AddrBit(a, k + 2),
            AddrBit(a, k + 1), !AddrBit(a, k + 1), AddrBit(a, k), !AddrBit(a, k));
  }

  lemma ColumnMasks(c: nat)
    requires c < 8
    ensures var m := Mask(c);
            && Has(0xf0, m) == AddrBit(c, 2) && Has(0x0f, m) == !AddrBit(c, 2)
            && Has(0xcc, m) == AddrBit(c, 1) && Has(0x33, m) == !AddrBit(c, 1)
            && Has(0xaa, m) == AddrBit(c, 0) && Has(0x55, m) == !AddrBit(c, 0)
  {
  }

  lemma ColumnToggles(block: seq<bv8>, a: nat, c: nat)
    requires a < |block| && c < 8
    ensures var u := Flip(block, a, c);
            && Cp(u, 0xf0) == Xor(Cp(block, 0xf0), AddrBit(c, 2)) && Cp(u, 0x0f) == Xor(Cp(block, 0x0f), !AddrBit(c, 2))
            && Cp(u, 0xcc) == Xor(Cp(block, 0xcc), AddrBit(c, 1)) && Cp(u, 0x33) == Xor(Cp(block, 0x33), !AddrBit(c, 1))
            && Cp(u, 0xaa) == Xor(Cp(block, 0xaa), AddrBit(c, 0)) && Cp(u, 0x55) == Xor(Cp(block, 0x55), !AddrBit(c, 0))
  {
    hide Cp, AddrBit, Flip, Mask, Xor8, Has;
    ColumnMasks(c);
    CpToggles(block, 0xf0, a, c);
    CpToggles(block, 0x0f, a, c);
    CpToggles(block, 0xcc, a, c);
    CpToggles(block, 0x33, a, c);
    CpToggles(block, 0xaa, a, c);
    CpToggles(block, 0x55, a, c);
  }

  lemma CpByteToggles(block: seq<bv8>, wide: bool, a: nat, c: nat)
    requires a < |block| && c < 8
    ensures CpByte(Flip(block, a, c), wide) == Xor8(CpByte(block, wide), Syndrome(a, c, wide).c2)
  {
    hide Rp, Cp, AddrBit, Pack, Flip, Xor8, PairByte, HighRp;
    ColumnToggles(block, a, c);
    HighRpToggles(block, wide, true, a, c);
    HighRpToggles(block, wide, false, a, c);
    PackXor(Cp(block, 0xf0), Cp(block, 0x0f), Cp(block, 0xcc), Cp(block, 0x33), Cp(block, 0xaa), Cp(block, 0x55),
            HighRp(block, wide, true), HighRp(block, wide, false),
            AddrBit(c, 2), !AddrBit(c, 2), AddrBit(c, 1), !AddrBit(c, 1), AddrBit(c, 0), !AddrBit(c, 0),
            wide && AddrBit(a, 8), wide && !AddrBit(a, 8));
  }

  lemma HighRpToggles(block: seq<bv8>, wide: bool, v: bool, a: nat, c: nat)
    requires a < |block| && c < 8
    ensures HighRp(Flip(block, a, c), wide, v) == Xor(HighRp(block, wide, v), wide && AddrBit(a, 8) == v)
  {
    hide Rp, AddrBit, Flip;
    RpToggles(block, 8, v, a, c);
  }

  /** The code is linear: a flipped bit adds its syndrome. */
  lemma CodeToggles(block: seq<bv8>, wide: bool, a: nat, c: nat)
    requires a < |block| && c < 8
    ensures CodeOf(Flip(block, a, c), wide) == CodeOf(block, wide).Xor(Syndrome(a, c, wide))
  {
    hide RpByte, CpByte, PairByte, Flip, AddrBit, Xor8, Pack;
    RpByteToggles(block, 4, a, c);
    RpByteToggles(block, 0, a, c);
    CpByteToggles(block, wide, a, c);
  }

  /** The block the code is computed over: data padded with ones to 256 bytes, or to 512 from
      256 bytes up. */
  predicate Wide(size: nat) { size >= 256 }

  function Padded(data: seq<bv8>): (block: seq<bv8>)
    requires |data| <= 512
    ensures |block| == if Wide(|data|) then 512 else 256
  {
    data + seq((if Wide(|data|) then 512 else 256) - |data|, i => 0xff)
  }

  function EccOf(data: seq<bv8>): Code
    requires |data| <= 512
  {
    CodeOf(Padded(data), Wide(|data|))
  }

  /** Bytes of 0xff change no parity: behind any data, none of the selected bits toggles. */
  lemma {:induction false} OnesAdd(data: seq<bv8>, n: nat, sel: Sel)
    ensures var x := XorOf(data + seq(n, i => 0xff), sel); x == XorOf(data, sel) || x == Xor8(XorOf(data, sel), 0xff)
    decreases n
  {
    hide Sel.Takes;
    if n == 0 {
      assert data + seq(0, i => 0xff) == data;
    } else {
      OnesAdd(data, n - 1, sel);
      var block: seq<bv8> := data + seq(n, i => 0xff);
      assert block[..|block| - 1] == data + seq(n - 1, i => 0xff);
      TwiceInverted(XorOf(data, sel));
    }
  }

  lemma TwiceInverted(x: bv8)
    ensures Xor8(Xor8(x, 0xff), 0xff) == x && Xor8(x, 0) == x && Xor8(Xor8(x, 0xff), 0) == Xor8(x, 0xff)
  {
  }

  lemma InversionKeepsParity(x: bv8)
    ensures EvenOnes(Xor8(x, 0xff)) == EvenOnes(x)
    ensures OddMasked(Xor8(x, 0xff), 0xf0) == OddMasked(x, 0xf0) && OddMasked(Xor8(x, 0xff), 0x0f) == OddMasked(x, 0x0f)
    ensures OddMasked(Xor8(x, 0xff), 0xcc) == OddMasked(x, 0xcc) && OddMasked(Xor8(x, 0xff), 0x33) == OddMasked(x, 0x33)
    ensures OddMasked(Xor8(x, 0xff), 0xaa) == OddMasked(x, 0xaa) && OddMasked(Xor8(x, 0xff), 0x55) == OddMasked(x, 0x55)
  {
    hide Odd, Xor8;
    OddOfXor(x, 0xff);
    OddMaskedXor(x, 0xff, 0xf0);
    OddMaskedXor(x, 0xff, 0x0f);
    OddMaskedXor(x, 0xff, 0xcc);
    OddMaskedXor(x, 0xff, 0x33);
    OddMaskedXor(x, 0xff, 0xaa);
    OddMaskedXor(x, 0xff, 0x55);
    EvenConstants();
  }

  lemma EvenConstants()
    ensures !Odd(0xff) && !OddMasked(0xff, 0xf0) && !OddMasked(0xff, 0x0f) && !OddMasked(0xff, 0xcc)
    ensures !OddMasked(0xff, 0x33) && !OddMasked(0xff, 0xaa) && !OddMasked(0xff, 0x55)
  {
  }

  /** The padding adds nothing: the code is that of the data alone. */
  lemma PaddingNeutral(data: seq<bv8>)
    requires |data| <= 512
    ensures EccOf(data) == CodeOf(data, Wide(|data|))
  {
    hide Odd, OddMasked, XorOf, AddrBit, Pack, EvenOnes, Xor8;
    var n := (if Wide(|data|) then 512 else 256) - |data|;
    forall sel: Sel
      ensures var x := XorOf(Padded(data), sel); x == XorOf(data, sel) || x == Xor8(XorOf(data, sel), 0xff)
    {
      OnesAdd(data, n, sel);
    }
    forall k: nat, v: bool
      ensures Rp(Padded(data), k, v) == Rp(data, k, v)
    {
      InversionKeepsParity(XorOf(data, Row(k, v)));
    }
    InversionKeepsParity(XorOf(data, All));
  }

  /** An erased block, all bytes 0xff, has an erased code, whatever its length. */
  lemma ErasedCode(n: nat)
    requires n <= 512
    ensures EccOf(seq(n, i => 0xff)) == Code(0xff, 0xff, 0xff)
  {
    hide Odd, OddMasked, XorOf, AddrBit, EvenOnes, Xor8;
    var data: seq<bv8> := seq(n, i => 0xff);
    PaddingNeutral(data);
    forall sel: Sel
      ensures XorOf(data, sel) == 0 || XorOf(data, sel) == Xor8(0, 0xff)
    {
      OnesAdd([], n, sel);
      assert [] + data == data;
      NoBytes(sel);
    }
    InversionKeepsParity(0);
    ZeroIsEven();
  }

  lemma NoBytes(sel: Sel)
    ensures XorOf([], sel) == 0
  {
  }

  lemma ZeroIsEven()
    ensures EvenOnes(0) && !OddMasked(0, 0xf0) && !OddMasked(0, 0x0f) && !OddMasked(0, 0xcc)
    ensures !OddMasked(0, 0x33) && !OddMasked(0, 0xaa) && !OddMasked(0, 0x55)
  {
  }

  lemma PaddedFlip(data: seq<bv8>, a: nat, c: nat)
    requires |data| <= 512 && a < |data| && c < 8
    ensures Padded(Flip(data, a, c)) == Flip(Padded(data), a, c)
  {
    hide Xor8, Mask;
  }

  /** Every pair of bits differs inside, where `mask` has a one. */
  function PairsDiffer(b: bv8, mask: bv8): bool { (b ^ (b >> 1)) & mask == mask }

  /** A syndrome the decoder takes for one flipped data bit. */
  predicate OneFlip(s: Code, wide: bool)
  {
    PairsDiffer(s.c1, 0x55) && PairsDiffer(s.c0, 0x55) && PairsDiffer(s.c2, if wide then 0x55 else 0x54)
  }

  function LowTwo(b: bv8): bv8 { b & 3 }

  function HighSix(b: bv8): bv8 { b >> 2 }

  /** The byte and bit it takes to be flipped. */
  function ByteAddr(s: Code, wide: bool): nat
  {
    var low := OddBits(s.c0) * 16 + OddBits(s.c1);
    if wide then OddBits(LowTwo(s.c2)) * 256 + low else low
  }

  function BitAddr(s: Code): nat { OddBits(HighSix(s.c2)) }

  /** `correct_data` as a function: return code and block. */
  function Corrected(data: seq<bv8>, stored: Code, computed: Code): (r: (int, seq<bv8>))
    requires OneFlip(stored.Xor(computed), Wide(|data|)) ==> ByteAddr(stored.Xor(computed), Wide(|data|)) < |data|
    ensures |r.1| == |data|
  {
    var s := stored.Xor(computed);
    if s == Code(0, 0, 0) then (0, data)
    else if OneFlip(s, Wide(|data|)) then
      BitAddrSmall(s.c2);
      (1, Flip(data, ByteAddr(s, Wide(|data|)), BitAddr(s)))
    else if Ones(s.c1) + Ones(s.c0) + Ones(s.c2) == 1 then (1, data)
    else (-1, data)
  }

  lemma BitAddrSmall(b: bv8)
    ensures OddBits(HighSix(b)) < 8
  {
    assert !Has(HighSix(b), 0x80);
  }
}
