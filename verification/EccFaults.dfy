/** Single-error correction and double-error detection over the whole word of data and stored
    code, and what else the decoder accepts. */
module EccFaults {
  import opened EccTables
  import opened EccParity
  import opened EccDecode

  /** One flipped bit: of the data, or of one of the three stored bytes. */
  datatype Fault = DataBit(a: nat, c: nat) | StoredBit(j: nat, c: nat) {
    predicate In(data: seq<bv8>) { c < 8 && (if DataBit? then a < |data| else j < 3) }
  }

  /** A block and the code stored for it. */
  datatype Word = Word(data: seq<bv8>, stored: Code)

  function Stored(data: seq<bv8>): Word
    requires |data| <= 512
  {
    Word(data, EccOf(data))
  }

  function Strike(w: Word, f: Fault): (r: Word)
    requires f.In(w.data)
    ensures |r.data| == |w.data|
  {
    match f
    case DataBit(a, c) => Word(Flip(w.data, a, c), w.stored)
    case StoredBit(j, c) => Word(w.data, FlipStored(w.stored, j, c))
  }

  /** What the decoder sees of a word. */
  function Seen(w: Word): Code
    requires |w.data| <= 512
  {
    w.stored.Xor(EccOf(w.data))
  }

  /** The decoder's write stays inside the block. */
  predicate InBounds(w: Word)
    requires |w.data| <= 512
  {
    OneFlip(Seen(w), Wide(|w.data|)) ==> ByteAddr(Seen(w), Wide(|w.data|)) < |w.data|
  }

  function Decoded(w: Word): (int, seq<bv8>)
    requires |w.data| <= 512 && InBounds(w)
  {
    Corrected(w.data, w.stored, EccOf(w.data))
  }

  /** What a fault adds to what the decoder sees. */
  function Trace(f: Fault, wide: bool): Code
    requires f.c < 8 && (f.StoredBit? ==> f.j < 3)
  {
    match f
    case DataBit(a, c) => Syndrome(a, c, wide)
    case StoredBit(j, c) =>
      Code(if j == 0 then Mask(c) else 0, if j == 1 then Mask(c) else 0, if j == 2 then Mask(c) else 0)
  }

  lemma CodesXor(x: Code, y: Code, z: Code)
    ensures x.Xor(y).Xor(z) == x.Xor(z).Xor(y) && x.Xor(y.Xor(z)) == x.Xor(y).Xor(z) && x.Xor(y) == y.Xor(x)
    ensures x.Xor(x) == Code(0, 0, 0) && Code(0, 0, 0).Xor(y) == y
  {
    hide Xor8;
    BytesXor(x.c0, y.c0, z.c0);
    BytesXor(x.c1, y.c1, z.c1);
    BytesXor(x.c2, y.c2, z.c2);
  }

  lemma BytesXor(p: bv8, q: bv8, r: bv8)
    ensures Xor8(Xor8(p, q), r) == Xor8(Xor8(p, r), q) && Xor8(p, Xor8(q, r)) == Xor8(Xor8(p, q), r)
    ensures Xor8(p, q) == Xor8(q, p) && Xor8(p, p) == 0 && Xor8(0, q) == q
  {
  }

  /** A fault adds its trace. */
  lemma StrikeSeen(w: Word, f: Fault)
    requires |w.data| <= 512 && f.In(w.data)
    ensures Seen(Strike(w, f)) == Seen(w).Xor(Trace(f, Wide(|w.data|)))
  {
    hide EccOf, Flip, Syndrome, Mask, Code.Xor, Wide;
    match f
    case DataBit(a, c) =>
      EccToggles(w.data, a, c);
      CodesXor(w.stored, EccOf(w.data), Syndrome(a, c, Wide(|w.data|)));
    case StoredBit(j, c) =>
      CodesXor(w.stored, Trace(f, Wide(|w.data|)), EccOf(w.data));
  }

  lemma IntactSeen(data: seq<bv8>)
    requires |data| <= 512
    ensures Seen(Stored(data)) == Code(0, 0, 0)
  {
    hide EccOf, Code.Xor;
    CodesXor(EccOf(data), EccOf(data), EccOf(data));
  }

  /** Single error correction: any one fault of the word is told and the block comes back. */
  lemma SingleFault(data: seq<bv8>, f: Fault)
    requires |data| <= 512 && f.In(data)
    ensures var w := Strike(Stored(data), f); InBounds(w) && Decoded(w) == (1, data)
  {
    hide EccOf, Flip, OneFlip, ByteAddr, FlipStored, Wide, Code.Xor, Corrected;
    match f
    case DataBit(a, c) =>
      SingleCorrected(data, a, c);
    case StoredBit(j, c) =>
      StoredFlipHarmless(data, j, c);
  }

  /** Of a 256-byte code the two low bits of the last byte are constant: a fault there does not
      disturb the correction of a data bit. */
  predicate Spare(f: Fault, wide: bool) { !wide && f.StoredBit? && f.j == 2 && f.c < 2 }

  lemma MaskBits(c: nat)
    requires c < 8
    ensures var m := Mask(c);
            && Has(m, 0x80) == (c == 7) && Has(m, 0x40) == (c == 6) && Has(m, 0x20) == (c == 5)
            && Has(m, 0x10) == (c == 4)
            && Has(m, 8) == (c == 3) && Has(m, 4) == (c == 2) && Has(m, 2) == (c == 1) && Has(m, 1) == (c == 0)
  {
  }

  /** A byte all of whose upper pairs differ has a one in each; with one bit flipped, two remain. */
  lemma PairsCount(b: bv8, c: nat)
    requires c < 8 && PairsDiffer(b, 0x54)
    ensures Ones(b) >= 3 && Ones(Xor8(b, Mask(c))) >= 2
  {
    hide PairsDiffer, Has, Xor8, Mask;
    MaskBits(c);
    BitsOfXor(b, Mask(c));
    PairsMean(b);
  }

  /** Flipping one bit breaks its pair. */
  lemma PairsBroken(b: bv8, c: nat)
    requires c < 8 && PairsDiffer(b, 0x54)
    ensures Ones(b) >= 3 && Ones(Xor8(b, Mask(c))) >= 2
    ensures c >= 2 ==> !PairsDiffer(Xor8(b, Mask(c)), 0x54) && !PairsDiffer(Xor8(b, Mask(c)), 0x55)
    ensures PairsDiffer(b, 0x55) ==> !PairsDiffer(Xor8(b, Mask(c)), 0x55)
    ensures c < 2 ==> PairsDiffer(Xor8(b, Mask(c)), 0x54)
  {
    hide PairsDiffer, Has, Xor8, Mask, Ones;
    PairsCount(b, c);
    MaskBits(c);
    BitsOfXor(b, Mask(c));
    PairsMean(b);
    PairsMean(Xor8(b, Mask(c)));
  }

  lemma LowBitsApart(b: bv8, c: nat)
    requires c < 2
    ensures HighSix(Xor8(b, Mask(c))) == HighSix(b)
  {
  }

  lemma SyndromePairs(a: nat, c: nat, wide: bool)
    ensures var s := Syndrome(a, c, wide);
            && PairsDiffer(s.c0, 0x55) && PairsDiffer(s.c1, 0x55) && PairsDiffer(s.c2, if wide then 0x55 else 0x54)
            && PairsDiffer(s.c0, 0x54) && PairsDiffer(s.c1, 0x54) && PairsDiffer(s.c2, 0x54)
  {
    hide PairsDiffer, PairByte, LastByte, Has;
    PairByteBits(a, 4);
    PairByteBits(a, 0);
    LastByteBits(a, c, wide);
    PairsMean(PairByte(a, 4));
    PairsMean(PairByte(a, 0));
    PairsMean(LastByte(a, c, wide));
  }

  lemma NothingAdded(b: bv8)
    ensures Xor8(b, 0) == b
  {
  }

  /** A data fault and a stored fault together. */
  lemma MixedTraces(a: nat, c: nat, j: nat, d: nat, wide: bool)
    requires a < (if wide then 512 else 256) && c < 8 && j < 3 && d < 8
    ensures var s := Syndrome(a, c, wide).Xor(Trace(StoredBit(j, d), wide));
            if Spare(StoredBit(j, d), wide) then OneFlip(s, wide) && ByteAddr(s, wide) == a && BitAddr(s) == c
            else !OneFlip(s, wide) && Ones(s.c1) + Ones(s.c0) + Ones(s.c2) != 1
    ensures Syndrome(a, c, wide).Xor(Trace(StoredBit(j, d), wide)) != Code(0, 0, 0)
  {
    hide PairsDiffer, Ones, Xor8, Mask, OddBits, HighSix, LowTwo, PairByte, LastByte;
    var t := Syndrome(a, c, wide);
    SyndromePairs(a, c, wide);
    SyndromeDecodes(a, c, wide);
    NothingAdded(t.c0);
    NothingAdded(t.c1);
    NothingAdded(t.c2);
    PairsBroken(t.c0, d);
    PairsBroken(t.c1, d);
    PairsBroken(t.c2, d);
    ZeroHasNone();
    if d < 2 {
      LowBitsApart(t.c2, d);
    }
  }

  lemma OnesParity(b: bv8)
    ensures Odd(b) <==> Ones(b) % 2 == 1
  {
    hide Has;
  }

  /** Two flipped bits of one byte: an even number of ones, but not none. */
  lemma TwoBits(c: nat, d: nat)
    requires c < 8 && d < 8 && c != d
    ensures Ones(Xor8(Mask(c), Mask(d))) % 2 == 0 && Xor8(Mask(c), Mask(d)) != 0
  {
    hide Odd, Ones, Xor8, Mask, Has;
    OddOfXor(Mask(c), Mask(d));
    OneBit(c);
    OneBit(d);
    OnesParity(Xor8(Mask(c), Mask(d)));
    MasksDiffer(c, d);
  }

  lemma MasksDiffer(c: nat, d: nat)
    requires c < 8 && d < 8 && c != d
    ensures Xor8(Mask(c), Mask(d)) != 0
  {
    assert Mask(c) != Mask(d);
  }

  /** What a byte of a stored fault's trace looks like. */
  lemma StoredByte(here: bool, c: nat)
    requires c < 8
    ensures var b := if here then Mask(c) else 0; Xor8(b, 0) == b && Xor8(0, b) == b && Ones(b) == if here then 1 else 0
    ensures (if here then Mask(c) else 0) == 0 <==> !here
  {
    hide Ones, Xor8, Mask;
    OneBitOnly(c);
    ZeroHasNone();
    BytesXor(0, Mask(c), 0);
    BytesXor(0, 0, 0);
  }

  /** Two different stored faults. */
  lemma StoredTraces(j: nat, c: nat, i: nat, d: nat, wide: bool)
    requires j < 3 && c < 8 && i < 3 && d < 8 && (j != i || c != d)
    ensures var s := Trace(StoredBit(j, c), wide).Xor(Trace(StoredBit(i, d), wide));
            s != Code(0, 0, 0) && !OneFlip(s, wide) && Ones(s.c1) + Ones(s.c0) + Ones(s.c2) != 1
  {
    hide PairsDiffer, Ones, Xor8, Mask, Has;
    ZeroHasNone();
    StoredByte(true, c);
    StoredByte(true, d);
    StoredByte(false, c);
    if j == i {
      TwoBits(c, d);
    }
  }

  lemma StruckTwice(data: seq<bv8>, f: Fault, e: Fault)
    requires |data| <= 512 && f.In(data) && e.In(data)
    ensures Seen(Strike(Strike(Stored(data), f), e)) == Trace(f, Wide(|data|)).Xor(Trace(e, Wide(|data|)))
  {
    hide EccOf, Trace, Code.Xor, Seen, Strike, Wide;
    var w, wide := Stored(data), Wide(|data|);
    StrikeSeen(w, f);
    StrikeSeen(Strike(w, f), e);
    IntactSeen(data);
    CodesXor(Code(0, 0, 0), Trace(f, wide), Trace(e, wide));
  }

  lemma Reported(w: Word)
    requires |w.data| <= 512
    requires var s := Seen(w);
             s != Code(0, 0, 0) && !OneFlip(s, Wide(|w.data|))
             && Ones(s.c1) + Ones(s.c0) + Ones(s.c2) != 1
    ensures InBounds(w) && Decoded(w) == (-1, w.data)
  {
    hide EccOf, OneFlip, Ones, Code.Xor;
  }

  lemma PutBack(w: Word, data: seq<bv8>, a: nat, c: nat)
    requires |data| <= 512 && a < |data| && c < 8 && w.data == Flip(data, a, c)
    requires var s, wide := Seen(w), Wide(|w.data|);
             s != Code(0, 0, 0) && OneFlip(s, wide) && ByteAddr(s, wide) == a && BitAddr(s) == c
    ensures InBounds(w) && Decoded(w) == (1, data)
  {
    hide EccOf, OneFlip, Ones, Code.Xor, ByteAddr, BitAddr, Flip;
    FlipBack(data, a, c);
  }

  /** Double error detection: any two faults are reported with the block left as it is, or it
      is put right; the latter exactly for a data fault and a fault in a constant stored bit. */
  lemma DoubleFault(data: seq<bv8>, f: Fault, e: Fault)
    requires |data| <= 512 && f.In(data) && e.In(data) && f != e
    ensures var w, wide := Strike(Strike(Stored(data), f), e), Wide(|data|);
            && InBounds(w)
            && Decoded(w) == if (f.DataBit? && Spare(e, wide)) || (e.DataBit? && Spare(f, wide)) then (1, data)
                             else (-1, w.data)
  {
    hide EccOf, Flip, OneFlip, Ones, Code.Xor, Syndrome, FlipStored, Seen, InBounds, Decoded, ByteAddr, BitAddr, Mask;
    StruckTwice(data, f, e);
    var w, wide := Strike(Strike(Stored(data), f), e), Wide(|data|);
    match (f, e)
    case (DataBit(a, c), DataBit(b, d)) =>
      TwoSyndromes(a, c, b, d, wide);
      Reported(w);
    case (StoredBit(j, c), StoredBit(i, d)) =>
      StoredTraces(j, c, i, d, wide);
      Reported(w);
    case (DataBit(a, c), StoredBit(j, d)) =>
      MixedFault(w, data, a, c, j, d);
    case (StoredBit(j, d), DataBit(a, c)) =>
      CodesXor(Trace(f, wide), Trace(e, wide), Code(0, 0, 0));
      MixedFault(w, data, a, c, j, d);
  }

  lemma MixedFault(w: Word, data: seq<bv8>, a: nat, c: nat, j: nat, d: nat)
    requires |data| <= 512 && a < |data| && c < 8 && j < 3 && d < 8 && w.data == Flip(data, a, c)
    requires Seen(w) == Trace(DataBit(a, c), Wide(|data|)).Xor(Trace(StoredBit(j, d), Wide(|data|)))
    ensures InBounds(w)
    ensures Decoded(w) == if Spare(StoredBit(j, d), Wide(|data|)) then (1, data) else (-1, w.data)
  {
    hide EccOf, Flip, OneFlip, Ones, Code.Xor, Syndrome, FlipStored, Seen, InBounds, Decoded, ByteAddr, BitAddr, Mask;
    MixedTraces(a, c, j, d, Wide(|data|));
    if Spare(StoredBit(j, d), Wide(|data|)) {
      PutBack(w, data, a, c);
    } else {
      Reported(w);
    }
  }

  /** Bytes of the padded block. */
  function BlockBytes(wide: bool): nat { if wide then 512 else 256 }

  /** Codes the decoder does not tell apart: it does not look at the constant bits. */
  predicate Alike(s: Code, t: Code, wide: bool)
  {
    s.c0 == t.c0 && s.c1 == t.c1 && (if wide then s.c2 == t.c2 else HighSix(s.c2) == HighSix(t.c2))
  }

  /** Address bits of a number given by its low nibble. */
  lemma NibbleBits(m: nat, b3: bool, b2: bool, b1: bool, b0: bool)
    ensures var a := 16 * m + Four(b3, b2, b1, b0);
            AddrBit(a, 3) == b3 && AddrBit(a, 2) == b2 && AddrBit(a, 1) == b1 && AddrBit(a, 0) == b0 && a / 16 == m
  {
    hide AddrBit;
    var a := 16 * m + Four(b3, b2, b1, b0);
    var h := 8 * m + 4 * B(b3) + 2 * B(b2) + B(b1);
    var q := 4 * m + 2 * B(b3) + B(b2);
    var e := 2 * m + B(b3);
    LowBits(a);
    assert a == 2 * h + B(b0) && a / 2 == h;
    assert h == 2 * q + B(b1) && h / 2 == q;
    assert q == 2 * e + B(b2) && q / 2 == e;
    assert e % 2 == B(b3) && e / 2 == m && a / 16 == m;
  }

  lemma PairByteOf(b: bv8, a: nat, k: nat)
    requires PairsDiffer(b, 0x55)
    requires AddrBit(a, k + 3) == Has(b, 0x80) && AddrBit(a, k + 2) == Has(b, 0x20)
    requires AddrBit(a, k + 1) == Has(b, 8) && AddrBit(a, k) == Has(b, 2)
    ensures PairByte(a, k) == b
  {
    hide AddrBit, PairByte, PairsDiffer, Has;
    PairsMean(b);
    PairByteHas(a, k);
    SameBits(PairByte(a, k), b);
  }

  lemma LastByteOf(b: bv8, a: nat, c: nat, wide: bool)
    requires PairsDiffer(b, if wide then 0x55 else 0x54)
    requires AddrBit(c, 2) == Has(b, 0x80) && AddrBit(c, 1) == Has(b, 0x20) && AddrBit(c, 0) == Has(b, 8)
    requires wide ==> AddrBit(a, 8) == Has(b, 2)
    ensures if wide then LastByte(a, c, wide) == b else HighSix(LastByte(a, c, wide)) == HighSix(b)
  {
    hide AddrBit, LastByte, PairsDiffer, Has, HighSix;
    PairsMean(b);
    LastByteHas(a, c, wide);
    if wide {
      SameBits(LastByte(a, c, wide), b);
    } else {
      SameHighSix(LastByte(a, c, wide), b);
    }
  }

  lemma SameHighSix(x: bv8, y: bv8)
    requires Has(x, 0x80) == Has(y, 0x80) && Has(x, 0x40) == Has(y, 0x40) && Has(x, 0x20) == Has(y, 0x20)
    requires Has(x, 0x10) == Has(y, 0x10) && Has(x, 8) == Has(y, 8) && Has(x, 4) == Has(y, 4)
    ensures HighSix(x) == HighSix(y)
  {
  }

  /** What the decoder takes for a flipped data bit is the syndrome of the bit it finds. */
  lemma FlipIsSyndrome(s: Code, wide: bool)
    requires OneFlip(s, wide)
    ensures ByteAddr(s, wide) < BlockBytes(wide) && BitAddr(s) < 8
    ensures Alike(s, Syndrome(ByteAddr(s, wide), BitAddr(s), wide), wide)
  {
    hide AddrBit, PairByte, LastByte, PairsDiffer, Has, HighSix, OddBits, ByteAddr;
    var a, c := ByteAddr(s, wide), BitAddr(s);
    BitAddrSmall(s.c2);
    AddressHas(s, wide);
    BitAddrHas(s.c2);
    PairByteOf(s.c0, a, 4);
    PairByteOf(s.c1, a, 0);
    LastByteOf(s.c2, a, c, wide);
  }

  lemma BitAddrHas(b: bv8)
    ensures var c := OddBits(HighSix(b));
            AddrBit(c, 2) == Has(b, 0x80) && AddrBit(c, 1) == Has(b, 0x20) && AddrBit(c, 0) == Has(b, 8)
  {
    hide AddrBit, Has, HighSix, Four;
    ShiftedBits(b);
    HighSixBits(b);
    NibbleBits(0, Has(HighSix(b), 0x80), Has(HighSix(b), 0x20), Has(HighSix(b), 8), Has(HighSix(b), 2));
  }

  lemma HighSixBits(b: bv8)
    ensures Has(HighSix(b), 0x20) == Has(b, 0x80) && Has(HighSix(b), 8) == Has(b, 0x20)
            && Has(HighSix(b), 2) == Has(b, 8)
  {
  }

  lemma AddressHas(s: Code, wide: bool)
    ensures var a := ByteAddr(s, wide);
            && a < BlockBytes(wide)
            && AddrBit(a, 7) == Has(s.c0, 0x80) && AddrBit(a, 6) == Has(s.c0, 0x20)
            && AddrBit(a, 5) == Has(s.c0, 8) && AddrBit(a, 4) == Has(s.c0, 2)
            && AddrBit(a, 3) == Has(s.c1, 0x80) && AddrBit(a, 2) == Has(s.c1, 0x20)
            && AddrBit(a, 1) == Has(s.c1, 8) && AddrBit(a, 0) == Has(s.c1, 2)
            && (wide ==> AddrBit(a, 8) == Has(s.c2, 2))
  {
    hide AddrBit, Has, LowTwo, Four;
    var a, top := ByteAddr(s, wide), if wide then OddBits(LowTwo(s.c2)) else 0;
    TopBit(s.c2);
    assert a == 16 * (16 * top + OddBits(s.c0)) + OddBits(s.c1);
    NibbleBits(16 * top + OddBits(s.c0), Has(s.c1, 0x80), Has(s.c1, 0x20), Has(s.c1, 8), Has(s.c1, 2));
    NibbleBits(top, Has(s.c0, 0x80), Has(s.c0, 0x20), Has(s.c0, 8), Has(s.c0, 2));
    HighBits(a, 0);
    HighBits(a, 1);
    HighBits(a, 2);
    HighBits(a, 3);
    HighBits(a, 4);
    HighBits(a / 16, 0);
  }

  lemma TopBit(b: bv8)
    ensures OddBits(LowTwo(b)) == B(Has(b, 2)) && AddrBit(B(Has(b, 2)), 0) == Has(b, 2)
  {
    hide Has, LowTwo;
    ShiftedBits(b);
  }

  lemma AlikeDecodes(s: Code, t: Code, wide: bool)
    requires Alike(s, t, wide)
    ensures OneFlip(s, wide) == OneFlip(t, wide) && ByteAddr(s, wide) == ByteAddr(t, wide) && BitAddr(s) == BitAddr(t)
  {
    hide Has, OddBits;
    if !wide {
      SixBitsDecide(s.c2, t.c2);
    }
  }

  lemma SixBitsDecide(x: bv8, y: bv8)
    requires HighSix(x) == HighSix(y)
    ensures PairsDiffer(x, 0x54) == PairsDiffer(y, 0x54)
  {
  }

  /** Some bit of the padding looks flipped. */
  ghost predicate PaddingFlip(w: Word)
    requires |w.data| <= 512
  {
    exists a: nat, c: nat :: |w.data| <= a < BlockBytes(Wide(|w.data|)) && c < 8
                             && Alike(Seen(w), Syndrome(a, c, Wide(|w.data|)), Wide(|w.data|))
  }

  /** The write leaves the block exactly when the codes differ as if a bit of the padding, which
      is not in the caller's buffer, had flipped. */
  lemma OutOfBoundsExact(w: Word)
    requires |w.data| <= 512
    ensures !InBounds(w) <==> PaddingFlip(w)
  {
    hide Seen, Syndrome, OneFlip, ByteAddr, BitAddr, Alike;
    var s, wide := Seen(w), Wide(|w.data|);
    if !InBounds(w) {
      FlipIsSyndrome(s, wide);
    }
    if a: nat, c: nat :| |w.data| <= a < BlockBytes(wide) && c < 8 && Alike(s, Syndrome(a, c, wide), wide) {
      SyndromeDecodes(a, c, wide);
      AlikeDecodes(s, Syndrome(a, c, wide), wide);
    }
  }

  /** Every block but one of 512 bytes has stored codes that make the write leave it: also one of
      256 bytes, which is padded to 512. */
  lemma OutOfBoundsHappens(data: seq<bv8>) returns (stored: Code)
    requires |data| < 512
    ensures !InBounds(Word(data, stored))
  {
    hide EccOf, Syndrome, OneFlip, ByteAddr, BitAddr, Code.Xor;
    var a, c := |data|, 0;
    stored := EccOf(data).Xor(Syndrome(a, c, Wide(|data|)));
    var s := Syndrome(a, c, Wide(|data|));
    CodesXor(EccOf(data), s, EccOf(data));
    CodesXor(EccOf(data), EccOf(data), s);
    SyndromeDecodes(a, c, Wide(|data|));
  }
}
