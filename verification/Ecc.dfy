/** lib/ecc.c: computing the code of a block and repairing a block in place. */
module Ecc {
  import opened EccTables
  import opened EccParity
  import opened EccWords
  import opened EccLanes

  /** `invparity` as a byte. */
  function Inv(b: bv8): (r: bv8)
    ensures r == if Odd(b) then 0 else 1
  {
    InvParityMeans(b);
    At(INVPARITY, b) as bv8
  }

  /** Eight table bits put together by shifting. */
  function Shifted(b7: bv8, b6: bv8, b5: bv8, b4: bv8, b3: bv8, b2: bv8, b1: bv8, b0: bv8): bv8
  {
    (b7 << 7) | (b6 << 6) | (b5 << 5) | (b4 << 4) | (b3 << 3) | (b2 << 2) | (b1 << 1) | b0
  }

  function U(even: bool): bv8 { if even then 1 else 0 }

  lemma ShiftedIsPack(b7: bool, b6: bool, b5: bool, b4: bool, b3: bool, b2: bool, b1: bool, b0: bool)
    ensures Shifted(U(b7), U(b6), U(b5), U(b4), U(b3), U(b2), U(b1), U(b0)) == Pack(b7, b6, b5, b4, b3, b2, b1, b0)
  {
  }

  /** Word `j` of chunk `i`. */
  function Read(bp: array<bv8>, i: nat, j: nat): (w: bv32)
    requires j < 16 && 64 * i + 64 <= bp.Length
    reads bp
    ensures w == W(bp[..], i, j)
  {
    var p := 64 * i + 4 * j;
    Join(bp[p], bp[p + 1], bp[p + 2], bp[p + 3])
  }

  /** Chunk boundaries in both ways of counting. */
  lemma Boundaries(s: seq<bv8>, i: nat)
    requires i < 8 && 64 * i + 64 <= |s|
    ensures Part(s, 0, i, 0) == Acc(s, Even(0), 16 * i) && Part(s, 0, i, 16) == Acc(s, Even(0), 16 * i + 16)
    ensures Part(s, 1, i, 0) == Acc(s, Even(1), 16 * i) && Part(s, 1, i, 16) == Acc(s, Even(1), 16 * i + 16)
    ensures Part(s, 2, i, 0) == Acc(s, Even(2), 16 * i) && Part(s, 2, i, 16) == Acc(s, Even(2), 16 * i + 16)
    ensures Part(s, 3, i, 0) == Acc(s, Even(3), 16 * i) && Part(s, 3, i, 16) == Acc(s, Even(3), 16 * i + 16)
    ensures Acc(s, All, 16 * i + 16) == Xor32(Acc(s, All, 16 * i), Run(s, i, 16))
  {
    hide XorWords, AddrBit, Xor32;
    WholeAll(s, i);
  }

  /** The parities of the chunk number's bits take the chunk or not. */
  lemma ChunkBits(s: seq<bv8>, i: nat)
    requires i < 8 && 64 * i + 64 <= |s|
    ensures Acc(s, Even(4), 16 * i + 16)
            == if i % 2 == 0 then Xor32(Acc(s, Even(4), 16 * i), Run(s, i, 16)) else Acc(s, Even(4), 16 * i)
    ensures Acc(s, Even(5), 16 * i + 16)
            == if i / 2 % 2 == 0 then Xor32(Acc(s, Even(5), 16 * i), Run(s, i, 16)) else Acc(s, Even(5), 16 * i)
    ensures Acc(s, Even(6), 16 * i + 16)
            == if i / 4 % 2 == 0 then Xor32(Acc(s, Even(6), 16 * i), Run(s, i, 16)) else Acc(s, Even(6), 16 * i)
  {
    hide XorWords, AddrBit, Xor32, Acc;
    NumberBits(0, i);
    WholeChunk(s, i, 0);
    WholeChunk(s, i, 1);
    WholeChunk(s, i, 2);
  }

  /** The unrolled part of the loop: sixteen words into the accumulators of address bits 2 to
      5, with the running parity of the sixteen. */
  method Sixteen(bp: array<bv8>, i: nat, r4: bv32, r6: bv32, r8: bv32, r10: bv32)
    returns (rp4: bv32, rp6: bv32, rp8: bv32, rp10: bv32, tmppar: bv32)
    requires i < 8 && 64 * i + 64 <= bp.Length
    requires r4 == Part(bp[..], 0, i, 0) && r6 == Part(bp[..], 1, i, 0)
    requires r8 == Part(bp[..], 2, i, 0) && r10 == Part(bp[..], 3, i, 0)
    ensures rp4 == Part(bp[..], 0, i, 16) && rp6 == Part(bp[..], 1, i, 16)
    ensures rp8 == Part(bp[..], 2, i, 16) && rp10 == Part(bp[..], 3, i, 16)
    ensures tmppar == Run(bp[..], i, 16)
  {
    hide Join, Xor32, Read, W, Part, Run;
    Runs(bp[..], i);
    Chunk4(bp[..], i);
    Chunk6(bp[..], i);
    Chunk8(bp[..], i);
    Chunk10(bp[..], i);
    rp4, rp6, rp8, rp10 := r4, r6, r8, r10;

    var cur := Read(bp, i, 0);
    tmppar := cur;
    rp4 := Xor32(rp4, cur);
    cur := Read(bp, i, 1);
    tmppar := Xor32(tmppar, cur);
    rp6 := Xor32(rp6, tmppar);
    cur := Read(bp, i, 2);
    tmppar := Xor32(tmppar, cur);
    rp4 := Xor32(rp4, cur);
    cur := Read(bp, i, 3);
    tmppar := Xor32(tmppar, cur);
    rp8 := Xor32(rp8, tmppar);

    cur := Read(bp, i, 4);
    tmppar := Xor32(tmppar, cur);
    rp4 := Xor32(rp4, cur);
    rp6 := Xor32(rp6, cur);
    cur := Read(bp, i, 5);
    tmppar := Xor32(tmppar, cur);
    rp6 := Xor32(rp6, cur);
    cur := Read(bp, i, 6);
    tmppar := Xor32(tmppar, cur);
    rp4 := Xor32(rp4, cur);
    cur := Read(bp, i, 7);
    tmppar := Xor32(tmppar, cur);
    rp10 := Xor32(rp10, tmppar);

    cur := Read(bp, i, 8);
    tmppar := Xor32(tmppar, cur);
    rp4 := Xor32(rp4, cur);
    rp6 := Xor32(rp6, cur);
    rp8 := Xor32(rp8, cur);
    cur := Read(bp, i, 9);
    tmppar := Xor32(tmppar, cur);
    rp6 := Xor32(rp6, cur);
    rp8 := Xor32(rp8, cur);
    cur := Read(bp, i, 10);
    tmppar := Xor32(tmppar, cur);
    rp4 := Xor32(rp4, cur);
    rp8 := Xor32(rp8, cur);
    cur := Read(bp, i, 11);
    tmppar := Xor32(tmppar, cur);
    rp8 := Xor32(rp8, cur);

    cur := Read(bp, i, 12);
    tmppar := Xor32(tmppar, cur);
    rp4 := Xor32(rp4, cur);
    rp6 := Xor32(rp6, cur);
    cur := Read(bp, i, 13);
    tmppar := Xor32(tmppar, cur);
    rp6 := Xor32(rp6, cur);
    cur := Read(bp, i, 14);
    tmppar := Xor32(tmppar, cur);
    rp4 := Xor32(rp4, cur);
    cur := Read(bp, i, 15);
    tmppar := Xor32(tmppar, cur);
  }

  lemma NothingYet(s: seq<bv8>)
    ensures Acc(s, Even(0), 0) == 0 && Acc(s, Even(1), 0) == 0 && Acc(s, Even(2), 0) == 0 && Acc(s, Even(3), 0) == 0
    ensures Acc(s, Even(4), 0) == 0 && Acc(s, Even(5), 0) == 0 && Acc(s, Even(6), 0) == 0 && Acc(s, All, 0) == 0
  {
  }

  /** The loop over the block: every accumulator ends with the words whose address bit is 0. */
  method Accumulate(bp: array<bv8>, mult: nat)
    returns (rp4: bv32, rp6: bv32, rp8: bv32, rp10: bv32, rp12: bv32, rp14: bv32, rp16: bv32, par: bv32)
    requires (mult == 1 || mult == 2) && bp.Length >= 256 * mult
    ensures rp4 == Acc(bp[..], Even(0), 64 * mult) && rp6 == Acc(bp[..], Even(1), 64 * mult)
    ensures rp8 == Acc(bp[..], Even(2), 64 * mult) && rp10 == Acc(bp[..], Even(3), 64 * mult)
    ensures rp12 == Acc(bp[..], Even(4), 64 * mult) && rp14 == Acc(bp[..], Even(5), 64 * mult)
    ensures mult == 2 ==> rp16 == Acc(bp[..], Even(6), 64 * mult)
    ensures par == Acc(bp[..], All, 64 * mult)
  {
    hide Xor32, Part, Run, Acc;
    NothingYet(bp[..]);
    rp4, rp6, rp8, rp10, rp12, rp14, rp16, par := 0, 0, 0, 0, 0, 0, 0, 0;
    var i := 0;
    while i < 4 * mult
      invariant 0 <= i <= 4 * mult
      invariant rp4 == Acc(bp[..], Even(0), 16 * i) && rp6 == Acc(bp[..], Even(1), 16 * i)
      invariant rp8 == Acc(bp[..], Even(2), 16 * i) && rp10 == Acc(bp[..], Even(3), 16 * i)
      invariant rp12 == Acc(bp[..], Even(4), 16 * i) && rp14 == Acc(bp[..], Even(5), 16 * i)
      invariant mult == 2 ==> rp16 == Acc(bp[..], Even(6), 16 * i)
      invariant par == Acc(bp[..], All, 16 * i)
    {
      Boundaries(bp[..], i);
      ChunkBits(bp[..], i);
      var tmppar;
      rp4, rp6, rp8, rp10, tmppar := Sixteen(bp, i, rp4, rp6, rp8, rp10);
      par := Xor32(par, tmppar);
      if i % 2 == 0 {
        rp12 := Xor32(rp12, tmppar);
      }
      if i / 2 % 2 == 0 {
        rp14 := Xor32(rp14, tmppar);
      }
      if mult == 2 && i / 4 % 2 == 0 {
        rp16 := Xor32(rp16, tmppar);
      }
      i := i + 1;
    }
  }

  /** The byte-sized parities of address bits 0 to 7, each pair `(bit 1, bit 0)`. */
  lemma RowParities(s: seq<bv8>, n: nat, k: nat)
    requires |s| == 4 * n
    ensures Fold(Acc(s, Even(k), n)) == XorOf(s, Row(k + 2, false))
    ensures Xor8(Fold(Acc(s, All, n)), Fold(Acc(s, Even(k), n))) == XorOf(s, Row(k + 2, true))
  {
    hide Fold, Acc, XorOf, Xor8;
    RowFolded(s, k, n);
    AllFolded(s, n);
    Complement(s, k + 2);
  }

  lemma InvIsU(b: bv8)
    ensures Inv(b) == U(EvenOnes(b))
  {
  }

  /** A code byte: the table's bit of each folded parity. */
  function TableByte(r7: bv8, r6: bv8, r5: bv8, r4: bv8, r3: bv8, r2: bv8, r1: bv8, r0: bv8): bv8
  {
    Shifted(Inv(r7), Inv(r6), Inv(r5), Inv(r4), Inv(r3), Inv(r2), Inv(r1), Inv(r0))
  }

  lemma TableByteBits(r7: bv8, r6: bv8, r5: bv8, r4: bv8, r3: bv8, r2: bv8, r1: bv8, r0: bv8)
    ensures TableByte(r7, r6, r5, r4, r3, r2, r1, r0)
            == Pack(EvenOnes(r7), EvenOnes(r6), EvenOnes(r5), EvenOnes(r4),
                    EvenOnes(r3), EvenOnes(r2), EvenOnes(r1), EvenOnes(r0))
  {
    hide EvenOnes, Inv, Shifted, Pack, U;
    InvIsU(r7);
    InvIsU(r6);
    InvIsU(r5);
    InvIsU(r4);
    InvIsU(r3);
    InvIsU(r2);
    InvIsU(r1);
    InvIsU(r0);
    ShiftedIsPack(EvenOnes(r7), EvenOnes(r6), EvenOnes(r5), EvenOnes(r4),
                  EvenOnes(r3), EvenOnes(r2), EvenOnes(r1), EvenOnes(r0));
  }

  /** The parities of one byte of the code. */
  lemma RowByte(s: seq<bv8>, k: nat)
    ensures TableByte(XorOf(s, Row(k + 3, true)), XorOf(s, Row(k + 3, false)),
                      XorOf(s, Row(k + 2, true)), XorOf(s, Row(k + 2, false)),
                      XorOf(s, Row(k + 1, true)), XorOf(s, Row(k + 1, false)),
                      XorOf(s, Row(k, true)), XorOf(s, Row(k, false)))
            == RpByte(s, k)
  {
    hide EvenOnes, TableByte, Pack, XorOf;
    TableByteBits(XorOf(s, Row(k + 3, true)), XorOf(s, Row(k + 3, false)),
                  XorOf(s, Row(k + 2, true)), XorOf(s, Row(k + 2, false)),
                  XorOf(s, Row(k + 1, true)), XorOf(s, Row(k + 1, false)),
                  XorOf(s, Row(k, true)), XorOf(s, Row(k, false)));
  }

  function And8(x: bv8, mask: bv8): bv8 { x & mask }

  /** The third byte; its low bits are 3 for a narrow block. */
  function ColumnByte(par: bv8, wide: bool, r17: bv8, r16: bv8): bv8
  {
    if wide then
      TableByte(And8(par, 0xf0), And8(par, 0x0f), And8(par, 0xcc), And8(par, 0x33),
                And8(par, 0xaa), And8(par, 0x55), r17, r16)
    else
      Shifted(Inv(And8(par, 0xf0)), Inv(And8(par, 0x0f)), Inv(And8(par, 0xcc)), Inv(And8(par, 0x33)),
              Inv(And8(par, 0xaa)), Inv(And8(par, 0x55)), 0, 0) | 3
  }

  lemma LowThree(b7: bv8, b6: bv8, b5: bv8, b4: bv8, b3: bv8, b2: bv8)
    ensures Shifted(b7, b6, b5, b4, b3, b2, 0, 0) | 3 == Shifted(b7, b6, b5, b4, b3, b2, 1, 1)
  {
  }

  lemma ZeroIsEven()
    ensures EvenOnes(0) && Inv(0) == 1
  {
  }

  lemma ColumnBit(s: seq<bv8>, mask: bv8)
    ensures EvenOnes(And8(XorOf(s, All), mask)) == Cp(s, mask)
  {
    hide XorOf;
  }

  lemma NarrowColumns(p7: bv8, p6: bv8, p5: bv8, p4: bv8, p3: bv8, p2: bv8)
    ensures Shifted(Inv(p7), Inv(p6), Inv(p5), Inv(p4), Inv(p3), Inv(p2), 0, 0) | 3
            == Pack(EvenOnes(p7), EvenOnes(p6), EvenOnes(p5), EvenOnes(p4), EvenOnes(p3), EvenOnes(p2), true, true)
  {
    hide Shifted, Inv, Pack, EvenOnes;
    LowThree(Inv(p7), Inv(p6), Inv(p5), Inv(p4), Inv(p3), Inv(p2));
    ZeroIsEven();
    TableByteBits(p7, p6, p5, p4, p3, p2, 0, 0);
  }

  lemma LastByteOf(s: seq<bv8>, wide: bool)
    ensures ColumnByte(XorOf(s, All), wide, XorOf(s, Row(8, true)), XorOf(s, Row(8, false))) == CpByte(s, wide)
  {
    hide XorOf, Shifted, Inv, Pack, EvenOnes, Cp, TableByte, And8;
    var par := XorOf(s, All);
    ColumnBit(s, 0xf0);
    ColumnBit(s, 0x0f);
    ColumnBit(s, 0xcc);
    ColumnBit(s, 0x33);
    ColumnBit(s, 0xaa);
    ColumnBit(s, 0x55);
    if wide {
      TableByteBits(And8(par, 0xf0), And8(par, 0x0f), And8(par, 0xcc), And8(par, 0x33),
                    And8(par, 0xaa), And8(par, 0x55), XorOf(s, Row(8, true)), XorOf(s, Row(8, false)));
    } else {
      NarrowColumns(And8(par, 0xf0), And8(par, 0x0f), And8(par, 0xcc), And8(par, 0x33),
                    And8(par, 0xaa), And8(par, 0x55));
    }
  }

  /** `code[0]`, `code[1]` and `code[2]` for the 256- or 512-byte block in `bp`. */
  method Encode(bp: array<bv8>, mult: nat, code: array<bv8>)
    requires (mult == 1 || mult == 2) && bp.Length == 256 * mult && code.Length >= 3 && bp != code
    modifies code
    ensures Code(code[0], code[1], code[2]) == CodeOf(bp[..], mult == 2)
    ensures forall i | 3 <= i < code.Length :: code[i] == old(code[i])
  {
    hide XorOf, Acc, TableByte, ColumnByte, Fold, FoldHigh, FoldLow, FoldOdd, FoldEven, Xor8, RpByte, CpByte;
    ghost var s, n := bp[..], 64 * mult;
    var w4, w6, w8, w10, w12, w14, w16, w := Accumulate(bp, mult);
    AllFolded(s, n);
    LowRowsFolded(s, n);
    RowParities(s, n, 0);
    RowParities(s, n, 1);
    RowParities(s, n, 2);
    RowParities(s, n, 3);
    RowParities(s, n, 4);
    RowParities(s, n, 5);
    RowParities(s, n, 6);
    var rp4, rp6, rp8, rp10, rp12, rp14, rp16 :=
        Fold(w4), Fold(w6), Fold(w8), Fold(w10), Fold(w12), Fold(w14), Fold(w16);
    var rp3, rp2, rp1, rp0, par := FoldHigh(w), FoldLow(w), FoldOdd(w), FoldEven(w), Fold(w);
    var rp5, rp7, rp9, rp11 := Xor8(par, rp4), Xor8(par, rp6), Xor8(par, rp8), Xor8(par, rp10);
    var rp13, rp15, rp17 := Xor8(par, rp12), Xor8(par, rp14), Xor8(par, rp16);
    RowByte(s, 0);
    RowByte(s, 4);
    LastByteOf(s, mult == 2);
    code[1] := TableByte(rp7, rp6, rp5, rp4, rp3, rp2, rp1, rp0);
    code[0] := TableByte(rp15, rp14, rp13, rp12, rp11, rp10, rp9, rp8);
    code[2] := ColumnByte(par, mult == 2, rp17, rp16);
    NarrowIgnores(par, rp17, rp16, XorOf(s, Row(8, true)), XorOf(s, Row(8, false)));
  }

  lemma NarrowIgnores(par: bv8, a: bv8, b: bv8, c: bv8, d: bv8)
    ensures ColumnByte(par, false, a, b) == ColumnByte(par, false, c, d)
  {
    hide Shifted, Inv;
  }

  /** `calculate_ecc` for up to 512 bytes: the code of the data padded with 0xff. */
  method CalculateEcc(buf: array<bv8>, code: array<bv8>)
    requires buf.Length <= 512 && code.Length >= 3 && buf != code
    modifies code
    ensures Code(code[0], code[1], code[2]) == EccOf(buf[..])
    ensures forall i | 3 <= i < code.Length :: code[i] == old(code[i])
  {
    hide CodeOf;
    var eccsize, bp := buf.Length, buf;
    if eccsize < 256 {
      bp := Pad(buf, 256);
      eccsize := 256;
    } else if eccsize < 512 {
      bp := Pad(buf, 512);
      eccsize := 512;
    }
    assert bp[..] == Padded(buf[..]);
    Encode(bp, eccsize / 256, code);
  }

  /** A copy of the data in a buffer filled up with 0xff. */
  method Pad(buf: array<bv8>, size: nat) returns (cbuf: array<bv8>)
    requires buf.Length <= size
    ensures fresh(cbuf) && cbuf[..] == buf[..] + seq(size - buf.Length, i => 0xff)
  {
    cbuf := new bv8[size];
    var i := 0;
    while i < buf.Length
      invariant 0 <= i <= buf.Length
      invariant cbuf[..i] == buf[..i]
    {
      cbuf[i] := buf[i];
      i := i + 1;
    }
    while i < size
      invariant buf.Length <= i <= size
      invariant cbuf[..buf.Length] == buf[..]
      invariant forall j | buf.Length <= j < i :: cbuf[j] == 0xff
    {
      cbuf[i] := 0xff;
      i := i + 1;
    }
  }

  /** `correct_data`: 0 when the codes agree, 1 when a bit was put back or only the stored code
      is at fault, -1 otherwise. */
  method CorrectData(buf: array<bv8>, readEcc: array<bv8>, calcEcc: array<bv8>) returns (rc: int)
    requires buf.Length <= 512 && readEcc.Length >= 3 && calcEcc.Length >= 3 && buf != readEcc && buf != calcEcc
    requires var s := Code(readEcc[0], readEcc[1], readEcc[2]).Xor(Code(calcEcc[0], calcEcc[1], calcEcc[2]));
             OneFlip(s, Wide(buf.Length)) ==> ByteAddr(s, Wide(buf.Length)) < buf.Length
    modifies buf
    ensures (rc, buf[..]) == Corrected(old(buf[..]), old(Code(readEcc[0], readEcc[1], readEcc[2])),
                                       old(Code(calcEcc[0], calcEcc[1], calcEcc[2])))
  {
    hide PairsDiffer, OddBits, Ones, Mask, Xor8, LowTwo, HighSix, At, INVPARITY, BITSPERBYTE, ADDRESSBITS;
    var mult := if buf.Length < 256 then 1 else 2;
    var b0, b1, b2 := Xor8(readEcc[1], calcEcc[1]), Xor8(readEcc[0], calcEcc[0]), Xor8(readEcc[2], calcEcc[2]);
    if b0 == 0 && b1 == 0 && b2 == 0 {
      return 0;
    }
    if PairsDiffer(b0, 0x55) && PairsDiffer(b1, 0x55)
       && ((mult == 1 && PairsDiffer(b2, 0x54)) || (mult == 2 && PairsDiffer(b2, 0x55))) {
      AddressBitsMeans(b0);
      AddressBitsMeans(b1);
      AddressBitsMeans(LowTwo(b2));
      AddressBitsMeans(HighSix(b2));
      BitAddrSmall(b2);
      var byteAddr := At(ADDRESSBITS, b1) * 16 + At(ADDRESSBITS, b0);
      if mult == 2 {
        byteAddr := At(ADDRESSBITS, LowTwo(b2)) * 256 + byteAddr;
      }
      var bitAddr := At(ADDRESSBITS, HighSix(b2));
      buf[byteAddr] := Xor8(buf[byteAddr], Mask(bitAddr));
      return 1;
    }
    BitsPerByteMeans(b0);
    BitsPerByteMeans(b1);
    BitsPerByteMeans(b2);
    if At(BITSPERBYTE, b0) + At(BITSPERBYTE, b1) + At(BITSPERBYTE, b2) == 1 {
      return 1;
    }
    rc := -1;
  }
}
