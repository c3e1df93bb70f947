/** What the decoder makes of one and of two flipped bits. */
module EccDecode {
  import opened Arith
  import opened EccTables
  import opened EccParity

  lemma PairsMean(b: bv8)
    ensures PairsDiffer(b, 0x54)
            <==> Has(b, 0x80) != Has(b, 0x40) && Has(b, 0x20) != Has(b, 0x10) && Has(b, 8) != Has(b, 4)
    ensures PairsDiffer(b, 0x55) <==> PairsDiffer(b, 0x54) && Has(b, 2) != Has(b, 1)
  {
  }

  lemma ShiftedBits(b: bv8)
    ensures Has(HighSix(b), 8) == Has(b, 0x20) && Has(HighSix(b), 2) == Has(b, 8)
            && Has(HighSix(b), 0x20) == Has(b, 0x80)
    ensures !Has(HighSix(b), 0x80)
    ensures Has(LowTwo(b), 2) == Has(b, 2) && !Has(LowTwo(b), 8) && !Has(LowTwo(b), 0x20) && !Has(LowTwo(b), 0x80)
  {
  }

  lemma BitSteps(i: nat, k: nat)
    ensures AddrBit(i, 0) <==> i % 2 == 1
    ensures AddrBit(i, k + 1) <==> AddrBit(i / 2, k)
  {
  }

  lemma LowBits(a: nat)
    ensures AddrBit(a, 0) <==> a % 2 == 1
    ensures AddrBit(a, 1) <==> a / 2 % 2 == 1
    ensures AddrBit(a, 2) <==> a / 2 / 2 % 2 == 1
    ensures AddrBit(a, 3) <==> a / 2 / 2 / 2 % 2 == 1
  {
    hide AddrBit;
    BitSteps(a, 0);
    BitSteps(a, 1);
    BitSteps(a / 2, 0);
    BitSteps(a, 2);
    BitSteps(a / 2, 1);
    BitSteps(a / 2 / 2, 0);
    BitSteps(a / 2 / 2 / 2, 0);
  }

  /** The low four address bits as a number. */
  lemma LowNibble(a: nat)
    ensures a % 16 == Four(AddrBit(a, 3), AddrBit(a, 2), AddrBit(a, 1), AddrBit(a, 0))
  {
    hide AddrBit;
    LowBits(a);
    Binary(a);
  }

  lemma Binary(a: nat)
    ensures a % 16 == 8 * (a / 2 / 2 / 2 % 2) + 4 * (a / 2 / 2 % 2) + 2 * (a / 2 % 2) + a % 2
  {
    var h := a / 2;
    var q := h / 2;
    var e := q / 2;
    DivUnique(a, 16, e / 2);
  }

  lemma HighBits(a: nat, k: nat)
    ensures AddrBit(a, k + 4) == AddrBit(a / 16, k)
  {
    hide AddrBit;
    BitSteps(a, k + 3);
    BitSteps(a / 2, k + 2);
    BitSteps(a / 2 / 2, k + 1);
    BitSteps(a / 2 / 2 / 2, k);
    assert a / 2 / 2 / 2 / 2 == a / 16;
  }

  /** An address below 512 is made of its nine bits. */
  lemma AddressOfBits(a: nat)
    requires a < 512
    ensures a == 256 * B(AddrBit(a, 8)) + 16 * Four(AddrBit(a, 7), AddrBit(a, 6), AddrBit(a, 5), AddrBit(a, 4))
                 + Four(AddrBit(a, 3), AddrBit(a, 2), AddrBit(a, 1), AddrBit(a, 0))
  {
    hide AddrBit, Four;
    LowNibble(a);
    LowNibble(a / 16);
    HighBits(a, 0);
    HighBits(a, 1);
    HighBits(a, 2);
    HighBits(a, 3);
    HighBits(a, 4);
    HighBits(a / 16, 0);
    OneBitNumber(a / 16 / 16);
  }

  lemma OneBitNumber(n: nat)
    requires n < 2
    ensures n == B(AddrBit(n, 0))
  {
  }

  /** The bits of the bytes of a one-bit syndrome. */
  lemma PairByteHas(a: nat, k: nat)
    ensures var b := PairByte(a, k);
            && Has(b, 0x80) == AddrBit(a, k + 3) && Has(b, 0x40) == !AddrBit(a, k + 3)
            && Has(b, 0x20) == AddrBit(a, k + 2) && Has(b, 0x10) == !AddrBit(a, k + 2)
            && Has(b, 8) == AddrBit(a, k + 1) && Has(b, 4) == !AddrBit(a, k + 1)
            && Has(b, 2) == AddrBit(a, k) && Has(b, 1) == !AddrBit(a, k)
  {
    hide AddrBit, Pack, Has;
    PackBits(AddrBit(a, k + 3), !AddrBit(a, k + 3), AddrBit(a, k + 2), !AddrBit(a, k + 2),
             AddrBit(a, k + 1), !AddrBit(a, k + 1), AddrBit(a, k), !AddrBit(a, k));
  }

  lemma LastByteHas(a: nat, c: nat, wide: bool)
    ensures var b := LastByte(a, c, wide);
            && Has(b, 0x80) == AddrBit(c, 2) && Has(b, 0x40) == !AddrBit(c, 2)
            && Has(b, 0x20) == AddrBit(c, 1) && Has(b, 0x10) == !AddrBit(c, 1)
            && Has(b, 8) == AddrBit(c, 0) && Has(b, 4) == !AddrBit(c, 0)
            && Has(b, 2) == (wide && AddrBit(a, 8)) && Has(b, 1) == (wide && !AddrBit(a, 8))
  {
    hide AddrBit, Pack, Has;
    PackBits(AddrBit(c, 2), !AddrBit(c, 2), AddrBit(c, 1), !AddrBit(c, 1), AddrBit(c, 0), !AddrBit(c, 0),
             wide && AddrBit(a, 8), wide && !AddrBit(a, 8));
  }

  lemma PairByteBits(a: nat, k: nat)
    ensures PairsDiffer(PairByte(a, k), 0x55)
    ensures OddBits(PairByte(a, k)) == Four(AddrBit(a, k + 3), AddrBit(a, k + 2), AddrBit(a, k + 1), AddrBit(a, k))
  {
    hide AddrBit, PairByte, PairsDiffer, Has;
    PairByteHas(a, k);
    PairsMean(PairByte(a, k));
  }

  lemma LastByteBits(a: nat, c: nat, wide: bool)
    ensures var b := LastByte(a, c, wide);
            && PairsDiffer(b, if wide then 0x55 else 0x54)
            && OddBits(HighSix(b)) == Four(false, AddrBit(c, 2), AddrBit(c, 1), AddrBit(c, 0))
            && OddBits(LowTwo(b)) == B(wide && AddrBit(a, 8))
  {
    hide AddrBit, LastByte, PairsDiffer, Has;
    LastByteHas(a, c, wide);
    PairsMean(LastByte(a, c, wide));
    ShiftedBits(LastByte(a, c, wide));
  }

  lemma BitOfBits(c: nat)
    requires c < 8
    ensures c == Four(false, AddrBit(c, 2), AddrBit(c, 1), AddrBit(c, 0))
  {
    hide AddrBit;
    LowNibble(c);
  }

  /** The decoder finds the flipped bit from its syndrome. */
  lemma SyndromeDecodes(a: nat, c: nat, wide: bool)
    requires a < (if wide then 512 else 256) && c < 8
    ensures var s := Syndrome(a, c, wide); OneFlip(s, wide) && ByteAddr(s, wide) == a && BitAddr(s) == c
  {
    hide AddrBit, PairsDiffer, Has, Four, OddBits, PairByte, LastByte, B;
    var s := Syndrome(a, c, wide);
    PairByteBits(a, 4);
    PairByteBits(a, 0);
    LastByteBits(a, c, wide);
    BitOfBits(c);
    AddressParts(a, wide, OddBits(s.c0), OddBits(s.c1));
  }

  lemma AddressParts(a: nat, wide: bool, mid: nat, low: nat)
    requires a < (if wide then 512 else 256)
    requires mid == Four(AddrBit(a, 7), AddrBit(a, 6), AddrBit(a, 5), AddrBit(a, 4))
    requires low == Four(AddrBit(a, 3), AddrBit(a, 2), AddrBit(a, 1), AddrBit(a, 0))
    ensures a == (if wide then B(wide && AddrBit(a, 8)) * 256 + (mid * 16 + low) else mid * 16 + low)
  {
    hide AddrBit, Four;
    AddressOfBits(a);
  }

  /** Both bits of every pair agree. */
  predicate PairsAgree(b: bv8)
  {
    Has(b, 0x80) == Has(b, 0x40) && Has(b, 0x20) == Has(b, 0x10) && Has(b, 8) == Has(b, 4) && Has(b, 2) == Has(b, 1)
  }

  lemma AgreeingByte(b: bv8)
    requires PairsAgree(b)
    ensures !PairsDiffer(b, 0x55) && Ones(b) % 2 == 0
  {
    hide PairsDiffer, Has;
    PairsMean(b);
  }

  lemma PairBytesAgree(a: nat, a': nat, k: nat)
    ensures PairsAgree(Xor8(PairByte(a, k), PairByte(a', k)))
    ensures Xor8(PairByte(a, k), PairByte(a', k)) == 0 ==>
      && AddrBit(a, k + 3) == AddrBit(a', k + 3) && AddrBit(a, k + 2) == AddrBit(a', k + 2)
      && AddrBit(a, k + 1) == AddrBit(a', k + 1) && AddrBit(a, k) == AddrBit(a', k)
  {
    hide AddrBit, PairByte, Has, Xor8, Ones, PairsDiffer;
    PairByteHas(a, k);
    PairByteHas(a', k);
    BitsOfXor(PairByte(a, k), PairByte(a', k));
    ZeroHasNone();
  }

  lemma LastBytesAgree(a: nat, c: nat, a': nat, c': nat, wide: bool)
    ensures var b := Xor8(LastByte(a, c, wide), LastByte(a', c', wide));
            && PairsAgree(b)
            && (b == 0 ==> AddrBit(c, 2) == AddrBit(c', 2) && AddrBit(c, 1) == AddrBit(c', 1)
                           && AddrBit(c, 0) == AddrBit(c', 0)
                           && (wide ==> AddrBit(a, 8) == AddrBit(a', 8)))
  {
    hide AddrBit, LastByte, Has, Xor8, Ones, PairsDiffer;
    LastByteHas(a, c, wide);
    LastByteHas(a', c', wide);
    BitsOfXor(LastByte(a, c, wide), LastByte(a', c', wide));
    ZeroHasNone();
  }

  lemma ZeroHasNone()
    ensures !Has(0, 0x80) && !Has(0, 0x40) && !Has(0, 0x20) && !Has(0, 0x10) && !Has(0, 8) && !Has(0, 4)
        && !Has(0, 2) && !Has(0, 1)
    ensures Ones(0) == 0 && !PairsDiffer(0, 0x55) && !PairsDiffer(0, 0x54)
  {
  }

  /** Two different flipped bits never look like none, like one, or like a fault in the code. */
  lemma TwoSyndromes(a: nat, c: nat, a': nat, c': nat, wide: bool)
    requires a < (if wide then 512 else 256) && a' < (if wide then 512 else 256) && c < 8 && c' < 8
    requires a != a' || c != c'
    ensures var s := Syndrome(a, c, wide).Xor(Syndrome(a', c', wide));
            s != Code(0, 0, 0) && !OneFlip(s, wide) && Ones(s.c1) + Ones(s.c0) + Ones(s.c2) != 1
  {
    hide AddrBit, PairsDiffer, Has, Four, PairByte, LastByte, Xor8, Ones, PairsAgree;
    var t, u := Syndrome(a, c, wide), Syndrome(a', c', wide);
    SyndromesAgree(a, c, a', c', wide);
    AgreeingByte(Xor8(t.c0, u.c0));
    AgreeingByte(Xor8(t.c1, u.c1));
    AgreeingByte(Xor8(t.c2, u.c2));
  }

  lemma SyndromesAgree(a: nat, c: nat, a': nat, c': nat, wide: bool)
    requires a < (if wide then 512 else 256) && a' < (if wide then 512 else 256) && c < 8 && c' < 8
    ensures var s := Syndrome(a, c, wide).Xor(Syndrome(a', c', wide));
            && PairsAgree(s.c0) && PairsAgree(s.c1) && PairsAgree(s.c2)
            && (s == Code(0, 0, 0) ==> a == a' && c == c')
  {
    hide AddrBit, PairsDiffer, Has, Four, PairByte, LastByte, Xor8, Ones, PairsAgree;
    PairBytesAgree(a, a', 4);
    PairBytesAgree(a, a', 0);
    LastBytesAgree(a, c, a', c', wide);
    if Syndrome(a, c, wide).Xor(Syndrome(a', c', wide)) == Code(0, 0, 0) {
      SameBitsSameAddress(a, c, a', c', wide);
    }
  }

  /** Addresses whose bits agree are equal. */
  lemma SameBitsSameAddress(a: nat, c: nat, a': nat, c': nat, wide: bool)
    requires a < (if wide then 512 else 256) && a' < (if wide then 512 else 256) && c < 8 && c' < 8
    requires forall k: nat | k < 8 :: AddrBit(a, k) == AddrBit(a', k)
    requires forall k: nat | k < 3 :: AddrBit(c, k) == AddrBit(c', k)
    requires wide ==> AddrBit(a, 8) == AddrBit(a', 8)
    ensures a == a' && c == c'
  {
    hide AddrBit;
    AddressOfBits(a);
    AddressOfBits(a');
    HighBitOfSmall(a);
    HighBitOfSmall(a');
    BitOfBits(c);
    BitOfBits(c');
  }

  lemma HighBitOfSmall(a: nat)
    requires a < 512
    ensures AddrBit(a, 8) <==> a >= 256
  {
    hide AddrBit, Four;
    AddressOfBits(a);
  }

  lemma Cancels(x: Code, y: Code)
    ensures x.Xor(x.Xor(y)) == y && x.Xor(x) == Code(0, 0, 0)
  {
    assert forall p: bv8, q: bv8 :: Xor8(p, Xor8(p, q)) == q;
    assert forall p: bv8 :: Xor8(p, p) == 0;
  }

  lemma Associates(x: Code, y: Code, z: Code)
    ensures x.Xor(y).Xor(z) == x.Xor(y.Xor(z))
  {
    hide Xor8;
    ByteAssociates(x.c0, y.c0, z.c0);
    ByteAssociates(x.c1, y.c1, z.c1);
    ByteAssociates(x.c2, y.c2, z.c2);
  }

  lemma EccToggles(data: seq<bv8>, a: nat, c: nat)
    requires |data| <= 512 && a < |data| && c < 8
    ensures EccOf(Flip(data, a, c)) == EccOf(data).Xor(Syndrome(a, c, Wide(|data|)))
  {
    hide CodeOf, Flip, Padded, Syndrome, Code.Xor;
    PaddedFlip(data, a, c);
    CodeToggles(Padded(data), Wide(|data|), a, c);
  }

  lemma FlipBack(data: seq<bv8>, a: nat, c: nat)
    requires a < |data| && c < 8
    ensures Flip(Flip(data, a, c), a, c) == data
  {
    hide Mask;
    assert Xor8(Xor8(data[a], Mask(c)), Mask(c)) == data[a];
  }

  /** An intact block is accepted. */
  lemma IntactAccepted(data: seq<bv8>)
    requires |data| <= 512
    ensures var s := EccOf(data).Xor(EccOf(data)); !OneFlip(s, Wide(|data|))
    ensures Corrected(data, EccOf(data), EccOf(data)) == (0, data)
  {
    hide CodeOf, Flip, Padded, Syndrome, Code.Xor, Pack, PairsDiffer, Has, OneFlip, ByteAddr, BitAddr, Ones;
    Cancels(EccOf(data), EccOf(data));
    ZeroIsNoFlip(Wide(|data|));
  }

  /** Any single flipped data bit is found and put back. */
  lemma SingleCorrected(data: seq<bv8>, a: nat, c: nat)
    requires |data| <= 512 && a < |data| && c < 8
    ensures var bad := Flip(data, a, c);
            var s := EccOf(data).Xor(EccOf(bad));
            && (OneFlip(s, Wide(|data|)) ==> ByteAddr(s, Wide(|data|)) < |bad|)
            && Corrected(bad, EccOf(data), EccOf(bad)) == (1, data)
  {
    hide CodeOf, Flip, Padded, Syndrome, Code.Xor, Pack, PairsDiffer, Has, OneFlip, ByteAddr, BitAddr;
    EccToggles(data, a, c);
    Cancels(EccOf(data), Syndrome(a, c, Wide(|data|)));
    SyndromeDecodes(a, c, Wide(|data|));
    FlipBack(data, a, c);
    ZeroIsNoFlip(Wide(|data|));
  }

  lemma ZeroIsNoFlip(wide: bool)
    ensures !OneFlip(Code(0, 0, 0), wide)
  {
    hide PairsDiffer, Has, Ones;
    ZeroHasNone();
  }

  /** Any two flipped data bits are reported and nothing is changed. */
  lemma DoubleReported(data: seq<bv8>, a: nat, c: nat, a': nat, c': nat)
    requires |data| <= 512 && a < |data| && c < 8 && a' < |data| && c' < 8
    requires a != a' || c != c'
    ensures var bad := Flip(Flip(data, a, c), a', c');
            var s := EccOf(data).Xor(EccOf(bad));
            && !OneFlip(s, Wide(|data|)) && Corrected(bad, EccOf(data), EccOf(bad)) == (-1, bad)
  {
    hide CodeOf, Flip, Padded, Syndrome, Code.Xor, Pack, PairsDiffer, Has, OneFlip, ByteAddr, BitAddr, Ones;
    EccToggles(data, a, c);
    EccToggles(Flip(data, a, c), a', c');
    Associates(EccOf(data), Syndrome(a, c, Wide(|data|)), Syndrome(a', c', Wide(|data|)));
    Cancels(EccOf(data), Syndrome(a, c, Wide(|data|)).Xor(Syndrome(a', c', Wide(|data|))));
    TwoSyndromes(a, c, a', c', Wide(|data|));
  }

  /** One bit of a stored code flipped. */
  function FlipStored(code: Code, j: nat, c: nat): Code
    requires j < 3 && c < 8
  {
    code.Xor(Code(if j == 0 then Mask(c) else 0, if j == 1 then Mask(c) else 0, if j == 2 then Mask(c) else 0))
  }

  /** A flipped bit of the stored code is told from a data error: nothing is changed. */
  lemma StoredFlipHarmless(data: seq<bv8>, j: nat, c: nat)
    requires |data| <= 512 && j < 3 && c < 8
    ensures var stored := FlipStored(EccOf(data), j, c);
            && !OneFlip(stored.Xor(EccOf(data)), Wide(|data|)) && Corrected(data, stored, EccOf(data)) == (1, data)
  {
    hide CodeOf, Flip, Padded, Pack, PairsDiffer, Has, ByteAddr, BitAddr, Ones, Mask, Xor8;
    var d := Code(if j == 0 then Mask(c) else 0, if j == 1 then Mask(c) else 0, if j == 2 then Mask(c) else 0);
    CancelsRight(EccOf(data), d);
    OneBitOnly(c);
    ZeroHasNone();
  }

  lemma CancelsRight(x: Code, y: Code)
    ensures x.Xor(y).Xor(x) == y
  {
    assert forall p: bv8, q: bv8 :: Xor8(Xor8(p, q), p) == q;
  }

  lemma OneBitOnly(c: nat)
    requires c < 8
    ensures Ones(Mask(c)) == 1 && Mask(c) != 0
  {
  }
}
