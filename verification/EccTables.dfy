/** The three lookup tables of lib/ecc.c and what they hold. */
module EccTables {

  /** A table of 256 entries, sixteen to a row: the row is the high nibble of the index. */
  type Nibbles = t: seq<seq<nat>> | |t| == 16 && forall r | 0 <= r < 16 :: |t[r]| == 16
    ghost witness seq(16, r => seq(16, c => 0))

  function At(t: Nibbles, b: bv8): nat
  {
    t[(b >> 4) as int][(b & 0xf) as int]
  }

  const EVEN_ROW: seq<nat> := [1, 0, 0, 1, 0, 1, 1, 0, 0, 1, 1, 0, 1, 0, 0, 1]
  const ODD_ROW: seq<nat> := [0, 1, 1, 0, 1, 0, 0, 1, 1, 0, 0, 1, 0, 1, 1, 0]

  const INVPARITY: Nibbles := [
    EVEN_ROW, ODD_ROW, ODD_ROW, EVEN_ROW, ODD_ROW, EVEN_ROW, EVEN_ROW, ODD_ROW,
    ODD_ROW, EVEN_ROW, EVEN_ROW, ODD_ROW, EVEN_ROW, ODD_ROW, ODD_ROW, EVEN_ROW
  ]

  const COUNT0: seq<nat> := [0, 1, 1, 2, 1, 2, 2, 3, 1, 2, 2, 3, 2, 3, 3, 4]
  const COUNT1: seq<nat> := [1, 2, 2, 3, 2, 3, 3, 4, 2, 3, 3, 4, 3, 4, 4, 5]
  const COUNT2: seq<nat> := [2, 3, 3, 4, 3, 4, 4, 5, 3, 4, 4, 5, 4, 5, 5, 6]
  const COUNT3: seq<nat> := [3, 4, 4, 5, 4, 5, 5, 6, 4, 5, 5, 6, 5, 6, 6, 7]
  const COUNT4: seq<nat> := [4, 5, 5, 6, 5, 6, 6, 7, 5, 6, 6, 7, 6, 7, 7, 8]

  const BITSPERBYTE: Nibbles := [
    COUNT0, COUNT1, COUNT1, COUNT2, COUNT1, COUNT2, COUNT2, COUNT3,
    COUNT1, COUNT2, COUNT2, COUNT3, COUNT2, COUNT3, COUNT3, COUNT4
  ]

  const ADDR0: seq<nat> := [0x0, 0x0, 0x1, 0x1, 0x0, 0x0, 0x1, 0x1, 0x2, 0x2, 0x3, 0x3, 0x2, 0x2, 0x3, 0x3]
  const ADDR4: seq<nat> := [0x4, 0x4, 0x5, 0x5, 0x4, 0x4, 0x5, 0x5, 0x6, 0x6, 0x7, 0x7, 0x6, 0x6, 0x7, 0x7]
  const ADDR8: seq<nat> := [0x8, 0x8, 0x9, 0x9, 0x8, 0x8, 0x9, 0x9, 0xa, 0xa, 0xb, 0xb, 0xa, 0xa, 0xb, 0xb]
  const ADDRC: seq<nat> := [0xc, 0xc, 0xd, 0xd, 0xc, 0xc, 0xd, 0xd, 0xe, 0xe, 0xf, 0xf, 0xe, 0xe, 0xf, 0xf]

  const ADDRESSBITS: Nibbles := [
    ADDR0, ADDR0, ADDR4, ADDR4, ADDR0, ADDR0, ADDR4, ADDR4,
    ADDR8, ADDR8, ADDRC, ADDRC, ADDR8, ADDR8, ADDRC, ADDRC
  ]

  /** A byte has a one where the mask has one. */
  predicate Has(b: bv8, mask: bv8)
  {
    b & mask != 0
  }

  function B(b: bool): (n: nat)
  {
    if b then 1 else 0
  }

  function Four(b3: bool, b2: bool, b1: bool, b0: bool): (n: nat)
    ensures n < 16
  {
    8 * B(b3) + 4 * B(b2) + 2 * B(b1) + B(b0)
  }

  function Xor(a: bool, b: bool): bool { a != b }

  function OddFour(b3: bool, b2: bool, b1: bool, b0: bool): bool
  {
    Xor(Xor(b3, b2), Xor(b1, b0))
  }

  function CountFour(b3: bool, b2: bool, b1: bool, b0: bool): nat
  {
    B(b3) + B(b2) + B(b1) + B(b0)
  }

  /** Whether a byte has an odd number of ones. */
  function Odd(b: bv8): bool
  {
    Xor(OddFour(Has(b, 0x80), Has(b, 0x40), Has(b, 0x20), Has(b, 0x10)),
        OddFour(Has(b, 8), Has(b, 4), Has(b, 2), Has(b, 1)))
  }

  function Ones(b: bv8): nat
  {
    CountFour(Has(b, 0x80), Has(b, 0x40), Has(b, 0x20), Has(b, 0x10))
    + CountFour(Has(b, 8), Has(b, 4), Has(b, 2), Has(b, 1))
  }

  /** The value of the odd-numbered bits of a byte. */
  function OddBits(b: bv8): nat
  {
    Four(Has(b, 0x80), Has(b, 0x20), Has(b, 8), Has(b, 2))
  }

  lemma NibbleValues(b: bv8)
    ensures (b >> 4) as int == Four(Has(b, 0x80), Has(b, 0x40), Has(b, 0x20), Has(b, 0x10))
    ensures (b & 0xf) as int == Four(Has(b, 8), Has(b, 4), Has(b, 2), Has(b, 1))
  {
  }

  lemma ParityRows(b3: bool, b2: bool, b1: bool, b0: bool)
    ensures var n := Four(b3, b2, b1, b0);
            && EVEN_ROW[n] == 1 - B(OddFour(b3, b2, b1, b0)) && ODD_ROW[n] == B(OddFour(b3, b2, b1, b0))
  {
  }

  lemma ParityTable(b3: bool, b2: bool, b1: bool, b0: bool)
    ensures INVPARITY[Four(b3, b2, b1, b0)] == if OddFour(b3, b2, b1, b0) then ODD_ROW else EVEN_ROW
  {
    hide EVEN_ROW, ODD_ROW;
  }

  /** `invparity` holds 1 for an even number of ones. */
  lemma InvParityMeans(b: bv8)
    ensures At(INVPARITY, b) == if Odd(b) then 0 else 1
  {
    hide INVPARITY, EVEN_ROW, ODD_ROW, Four, Has;
    NibbleValues(b);
    ParityTable(Has(b, 0x80), Has(b, 0x40), Has(b, 0x20), Has(b, 0x10));
    ParityRows(Has(b, 8), Has(b, 4), Has(b, 2), Has(b, 1));
  }

  function CountRow(n: nat): seq<nat>
    requires n <= 4
  {
    if n == 0 then COUNT0 else if n == 1 then COUNT1 else if n == 2 then COUNT2 else if n == 3 then COUNT3 else COUNT4
  }

  lemma CountRows(n: nat, b3: bool, b2: bool, b1: bool, b0: bool)
    requires n <= 4
    ensures |CountRow(n)| == 16 && CountRow(n)[Four(b3, b2, b1, b0)] == n + CountFour(b3, b2, b1, b0)
  {
  }

  lemma CountTable(b3: bool, b2: bool, b1: bool, b0: bool)
    ensures BITSPERBYTE[Four(b3, b2, b1, b0)] == CountRow(CountFour(b3, b2, b1, b0))
  {
    hide COUNT0, COUNT1, COUNT2, COUNT3, COUNT4;
  }

  /** `bitsperbyte` holds the number of ones. */
  lemma BitsPerByteMeans(b: bv8)
    ensures At(BITSPERBYTE, b) == Ones(b)
  {
    hide BITSPERBYTE, CountRow, Four, Has;
    NibbleValues(b);
    CountTable(Has(b, 0x80), Has(b, 0x40), Has(b, 0x20), Has(b, 0x10));
    CountRows(CountFour(Has(b, 0x80), Has(b, 0x40), Has(b, 0x20), Has(b, 0x10)),
              Has(b, 8), Has(b, 4), Has(b, 2), Has(b, 1));
  }

  function AddrRow(hi: bool, lo: bool): seq<nat>
  {
    if hi then (if lo then ADDRC else ADDR8) else (if lo then ADDR4 else ADDR0)
  }

  lemma AddrRows(hi: bool, lo: bool, b3: bool, b2: bool, b1: bool, b0: bool)
    ensures |AddrRow(hi, lo)| == 16 && AddrRow(hi, lo)[Four(b3, b2, b1, b0)] == Four(hi, lo, b3, b1)
  {
  }

  lemma AddrTable(b3: bool, b2: bool, b1: bool, b0: bool)
    ensures ADDRESSBITS[Four(b3, b2, b1, b0)] == AddrRow(b3, b1)
  {
    hide ADDR0, ADDR4, ADDR8, ADDRC;
  }

  /** `addressbits` holds the odd-numbered bits, squeezed together. */
  lemma AddressBitsMeans(b: bv8)
    ensures At(ADDRESSBITS, b) == OddBits(b)
  {
    hide ADDRESSBITS, AddrRow, Four, Has;
    NibbleValues(b);
    AddrTable(Has(b, 0x80), Has(b, 0x40), Has(b, 0x20), Has(b, 0x10));
    AddrRows(Has(b, 0x80), Has(b, 0x20), Has(b, 8), Has(b, 4), Has(b, 2), Has(b, 1));
  }
}
