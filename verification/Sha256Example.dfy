/** The worked example of FIPS 180-2, appendix B.1: the message "abc". It ties every function and
    constant of the definition, and the order of bytes and words, to the values the standard
    prints. */
module Sha256Example {
  import opened Words
  import opened Sha256Spec

  const ABC: seq<u8> := [0x61, 0x62, 0x63]

  /** The padded message. */
  function PaddedAbc(): Block { ABC + [0x80] + seq(59, i => 0) + [0x18] }

  /** The message schedule, eight words to a row. */
  ghost predicate Words0(m: Block) {
    && Schedule(m, 0) == 0x61626380 && Schedule(m, 1) == 0x00000000
    && Schedule(m, 2) == 0x00000000 && Schedule(m, 3) == 0x00000000
    && Schedule(m, 4) == 0x00000000 && Schedule(m, 5) == 0x00000000
    && Schedule(m, 6) == 0x00000000 && Schedule(m, 7) == 0x00000000
  }

  ghost predicate Words1(m: Block) {
    && Schedule(m, 8) == 0x00000000 && Schedule(m, 9) == 0x00000000
    && Schedule(m, 10) == 0x00000000 && Schedule(m, 11) == 0x00000000
    && Schedule(m, 12) == 0x00000000 && Schedule(m, 13) == 0x00000000
    && Schedule(m, 14) == 0x00000000 && Schedule(m, 15) == 0x00000018
  }

  ghost predicate Words2(m: Block) {
    && Schedule(m, 16) == 0x61626380 && Schedule(m, 17) == 0x000F0000
    && Schedule(m, 18) == 0x7DA86405 && Schedule(m, 19) == 0x600003C6
    && Schedule(m, 20) == 0x3E9D7B78 && Schedule(m, 21) == 0x0183FC00
    && Schedule(m, 22) == 0x12DCBFDB && Schedule(m, 23) == 0xE2E2C38E
  }

  ghost predicate Words3(m: Block) {
    && Schedule(m, 24) == 0xC8215C1A && Schedule(m, 25) == 0xB73679A2
    && Schedule(m, 26) == 0xE5BC3909 && Schedule(m, 27) == 0x32663C5B
    && Schedule(m, 28) == 0x9D209D67 && Schedule(m, 29) == 0xEC8726CB
    && Schedule(m, 30) == 0x702138A4 && Schedule(m, 31) == 0xD3B7973B
  }

  ghost predicate Words4(m: Block) {
    && Schedule(m, 32) == 0x93F5997F && Schedule(m, 33) == 0x3B68BA73
    && Schedule(m, 34) == 0xAFF4FFC1 && Schedule(m, 35) == 0xF10A5C62
    && Schedule(m, 36) == 0x0A8B3996 && Schedule(m, 37) == 0x72AF830A
    && Schedule(m, 38) == 0x9409E33E && Schedule(m, 39) == 0x24641522
  }

  ghost predicate Words5(m: Block) {
    && Schedule(m, 40) == 0x9F47BF94 && Schedule(m, 41) == 0xF0A64F5A
    && Schedule(m, 42) == 0x3E246A79 && Schedule(m, 43) == 0x27333BA3
    && Schedule(m, 44) == 0x0C4763F2 && Schedule(m, 45) == 0x840ABF27
    && Schedule(m, 46) == 0x7A290D5D && Schedule(m, 47) == 0x065C43DA
  }

  ghost predicate Words6(m: Block) {
    && Schedule(m, 48) == 0xFB3E89CB && Schedule(m, 49) == 0xCC7617DB
    && Schedule(m, 50) == 0xB9E66C34 && Schedule(m, 51) == 0xA9993667
    && Schedule(m, 52) == 0x84BADEDD && Schedule(m, 53) == 0xC21462BC
    && Schedule(m, 54) == 0x1487472C && Schedule(m, 55) == 0xB20F7A99
  }

  ghost predicate Words7(m: Block) {
    && Schedule(m, 56) == 0xEF57B9CD && Schedule(m, 57) == 0xEBE6B238
    && Schedule(m, 58) == 0x9FE3095E && Schedule(m, 59) == 0x78BC8D4B
    && Schedule(m, 60) == 0xA43FCF15 && Schedule(m, 61) == 0x668B2FF8
    && Schedule(m, 62) == 0xEEABA2CC && Schedule(m, 63) == 0x12B1EDEB
  }

  lemma BlockBytes(i: nat)
    requires i < 64
    ensures PaddedAbc()[i] == if i < 3 then ABC[i] else if i == 3 then 0x80 else if i < 63 then 0 else 0x18
  {
  }

  /** The first sixteen words are those of the block. */
  lemma First(m: Block)
    requires m == PaddedAbc()
    ensures Words0(m) && Words1(m)
  {
    hide Schedule, PaddedAbc, BeWord;
    FirstWord(m);
    forall t | 1 <= t < 15
      ensures Schedule(m, t) == 0
    {
      ZeroWord(m, t);
    }
    LastWord(m);
  }

  lemma FirstWord(m: Block)
    requires m == PaddedAbc()
    ensures Schedule(m, 0) == 0x61626380
  {
    hide Schedule, PaddedAbc;
    BlockBytes(0);
    BlockBytes(1);
    BlockBytes(2);
    BlockBytes(3);
    Own(m, 0, 0x61, 0x62, 0x63, 0x80);
  }

  lemma ZeroWord(m: Block, t: nat)
    requires m == PaddedAbc() && 1 <= t < 15
    ensures Schedule(m, t) == 0
  {
    hide Schedule, PaddedAbc;
    BlockBytes(4 * t);
    BlockBytes(4 * t + 1);
    BlockBytes(4 * t + 2);
    BlockBytes(4 * t + 3);
    Own(m, t, 0, 0, 0, 0);
  }

  lemma LastWord(m: Block)
    requires m == PaddedAbc()
    ensures Schedule(m, 15) == 0x18
  {
    hide Schedule, PaddedAbc;
    BlockBytes(60);
    BlockBytes(61);
    BlockBytes(62);
    BlockBytes(63);
    Own(m, 15, 0, 0, 0, 0x18);
  }

  lemma Own(m: Block, t: nat, b0: u8, b1: u8, b2: u8, b3: u8)
    requires t < 16 && m[4 * t] == b0 && m[4 * t + 1] == b1 && m[4 * t + 2] == b2 && m[4 * t + 3] == b3
    ensures Schedule(m, t) == BeWord(b0, b1, b2, b3)
  {
    hide BeWord;
  }

  /** A later word follows from four earlier ones. */
  lemma Later(m: Block, t: nat, a: bv32, b: bv32, c: bv32, d: bv32)
    requires 16 <= t < 64 && Schedule(m, t - 2) == a && Schedule(m, t - 7) == b
    requires Schedule(m, t - 15) == c && Schedule(m, t - 16) == d
    ensures Schedule(m, t) == Add(Add(Add(SmallSigma1(a), b), SmallSigma0(c)), d)
  {
    hide SmallSigma0, SmallSigma1, Add;
  }

  lemma Later2(m: Block)
    requires Words0(m) && Words1(m)
    ensures Words2(m)
  {
    hide Schedule;
    Later(m, 16, 0x00000000, 0x00000000, 0x00000000, 0x61626380);
    Later(m, 17, 0x00000018, 0x00000000, 0x00000000, 0x00000000);
    Later(m, 18, 0x61626380, 0x00000000, 0x00000000, 0x00000000);
    Later(m, 19, 0x000F0000, 0x00000000, 0x00000000, 0x00000000);
    Later(m, 20, 0x7DA86405, 0x00000000, 0x00000000, 0x00000000);
    Later(m, 21, 0x600003C6, 0x00000000, 0x00000000, 0x00000000);
    Later(m, 22, 0x3E9D7B78, 0x00000018, 0x00000000, 0x00000000);
    Later(m, 23, 0x0183FC00, 0x61626380, 0x00000000, 0x00000000);
  }

  lemma Later3(m: Block)
    requires Words1(m) && Words2(m)
    ensures Words3(m)
  {
    hide Schedule;
    Later(m, 24, 0x12DCBFDB, 0x000F0000, 0x00000000, 0x00000000);
    Later(m, 25, 0xE2E2C38E, 0x7DA86405, 0x00000000, 0x00000000);
    Later(m, 26, 0xC8215C1A, 0x600003C6, 0x00000000, 0x00000000);
    Later(m, 27, 0xB73679A2, 0x3E9D7B78, 0x00000000, 0x00000000);
    Later(m, 28, 0xE5BC3909, 0x0183FC00, 0x00000000, 0x00000000);
    Later(m, 29, 0x32663C5B, 0x12DCBFDB, 0x00000000, 0x00000000);
    Later(m, 30, 0x9D209D67, 0xE2E2C38E, 0x00000018, 0x00000000);
    Later(m, 31, 0xEC8726CB, 0xC8215C1A, 0x61626380, 0x00000018);
  }

  lemma Later4(m: Block)
    requires Words2(m) && Words3(m)
    ensures Words4(m)
  {
    hide Schedule;
    Later(m, 32, 0x702138A4, 0xB73679A2, 0x000F0000, 0x61626380);
    Later(m, 33, 0xD3B7973B, 0xE5BC3909, 0x7DA86405, 0x000F0000);
    Later(m, 34, 0x93F5997F, 0x32663C5B, 0x600003C6, 0x7DA86405);
    Later(m, 35, 0x3B68BA73, 0x9D209D67, 0x3E9D7B78, 0x600003C6);
    Later(m, 36, 0xAFF4FFC1, 0xEC8726CB, 0x0183FC00, 0x3E9D7B78);
    Later(m, 37, 0xF10A5C62, 0x702138A4, 0x12DCBFDB, 0x0183FC00);
    Later(m, 38, 0x0A8B3996, 0xD3B7973B, 0xE2E2C38E, 0x12DCBFDB);
    Later(m, 39, 0x72AF830A, 0x93F5997F, 0xC8215C1A, 0xE2E2C38E);
  }

  lemma Later5(m: Block)
    requires Words3(m) && Words4(m)
    ensures Words5(m)
  {
    hide Schedule;
    Later(m, 40, 0x9409E33E, 0x3B68BA73, 0xB73679A2, 0xC8215C1A);
    Later(m, 41, 0x24641522, 0xAFF4FFC1, 0xE5BC3909, 0xB73679A2);
    Later(m, 42, 0x9F47BF94, 0xF10A5C62, 0x32663C5B, 0xE5BC3909);
    Later(m, 43, 0xF0A64F5A, 0x0A8B3996, 0x9D209D67, 0x32663C5B);
    Later(m, 44, 0x3E246A79, 0x72AF830A, 0xEC8726CB, 0x9D209D67);
    Later(m, 45, 0x27333BA3, 0x9409E33E, 0x702138A4, 0xEC8726CB);
    Later(m, 46, 0x0C4763F2, 0x24641522, 0xD3B7973B, 0x702138A4);
    Later(m, 47, 0x840ABF27, 0x9F47BF94, 0x93F5997F, 0xD3B7973B);
  }

  lemma Later6(m: Block)
    requires Words4(m) && Words5(m)
    ensures Words6(m)
  {
    hide Schedule;
    Later(m, 48, 0x7A290D5D, 0xF0A64F5A, 0x3B68BA73, 0x93F5997F);
    Later(m, 49, 0x065C43DA, 0x3E246A79, 0xAFF4FFC1, 0x3B68BA73);
    Later(m, 50, 0xFB3E89CB, 0x27333BA3, 0xF10A5C62, 0xAFF4FFC1);
    Later(m, 51, 0xCC7617DB, 0x0C4763F2, 0x0A8B3996, 0xF10A5C62);
    Later(m, 52, 0xB9E66C34, 0x840ABF27, 0x72AF830A, 0x0A8B3996);
    Later(m, 53, 0xA9993667, 0x7A290D5D, 0x9409E33E, 0x72AF830A);
    Later(m, 54, 0x84BADEDD, 0x065C43DA, 0x24641522, 0x9409E33E);
    Later(m, 55, 0xC21462BC, 0xFB3E89CB, 0x9F47BF94, 0x24641522);
  }

  lemma Later7(m: Block)
    requires Words5(m) && Words6(m)
    ensures Words7(m)
  {
    hide Schedule;
    Later(m, 56, 0x1487472C, 0xCC7617DB, 0xF0A64F5A, 0x9F47BF94);
    Later(m, 57, 0xB20F7A99, 0xB9E66C34, 0x3E246A79, 0xF0A64F5A);
    Later(m, 58, 0xEF57B9CD, 0xA9993667, 0x27333BA3, 0x3E246A79);
    Later(m, 59, 0xEBE6B238, 0x84BADEDD, 0x0C4763F2, 0x27333BA3);
    Later(m, 60, 0x9FE3095E, 0xC21462BC, 0x840ABF27, 0x0C4763F2);
    Later(m, 61, 0x78BC8D4B, 0x1487472C, 0x7A290D5D, 0x840ABF27);
    Later(m, 62, 0xA43FCF15, 0xB20F7A99, 0x065C43DA, 0x7A290D5D);
    Later(m, 63, 0x668B2FF8, 0xEF57B9CD, 0xFB3E89CB, 0x065C43DA);
  }

  function Regs(a: bv32, b: bv32, c: bv32, d: bv32, e: bv32, f: bv32, g: bv32, h: bv32): Vars
  {
    Vars(a, b, c, d, e, f, g, h)
  }

  /** The working variables after each round. */
  const V0 := Regs(0x6A09E667, 0xBB67AE85, 0x3C6EF372, 0xA54FF53A, 0x510E527F, 0x9B05688C, 0x1F83D9AB, 0x5BE0CD19)
  const V1 := Regs(0x5D6AEBCD, 0x6A09E667, 0xBB67AE85, 0x3C6EF372, 0xFA2A4622, 0x510E527F, 0x9B05688C, 0x1F83D9AB)
  const V2 := Regs(0x5A6AD9AD, 0x5D6AEBCD, 0x6A09E667, 0xBB67AE85, 0x78CE7989, 0xFA2A4622, 0x510E527F, 0x9B05688C)
  const V3 := Regs(0xC8C347A7, 0x5A6AD9AD, 0x5D6AEBCD, 0x6A09E667, 0xF92939EB, 0x78CE7989, 0xFA2A4622, 0x510E527F)
  const V4 := Regs(0xD550F666, 0xC8C347A7, 0x5A6AD9AD, 0x5D6AEBCD, 0x24E00850, 0xF92939EB, 0x78CE7989, 0xFA2A4622)
  const V5 := Regs(0x04409A6A, 0xD550F666, 0xC8C347A7, 0x5A6AD9AD, 0x43ADA245, 0x24E00850, 0xF92939EB, 0x78CE7989)
  const V6 := Regs(0x2B4209F5, 0x04409A6A, 0xD550F666, 0xC8C347A7, 0x714260AD, 0x43ADA245, 0x24E00850, 0xF92939EB)
  const V7 := Regs(0xE5030380, 0x2B4209F5, 0x04409A6A, 0xD550F666, 0x9B27A401, 0x714260AD, 0x43ADA245, 0x24E00850)
  const V8 := Regs(0x85A07B5F, 0xE5030380, 0x2B4209F5, 0x04409A6A, 0x0C657A79, 0x9B27A401, 0x714260AD, 0x43ADA245)
  const V9 := Regs(0x8E04ECB9, 0x85A07B5F, 0xE5030380, 0x2B4209F5, 0x32CA2D8C, 0x0C657A79, 0x9B27A401, 0x714260AD)
  const V10 := Regs(0x8C87346B, 0x8E04ECB9, 0x85A07B5F, 0xE5030380, 0x1CC92596, 0x32CA2D8C, 0x0C657A79, 0x9B27A401)
  const V11 := Regs(0x4798A3F4, 0x8C87346B, 0x8E04ECB9, 0x85A07B5F, 0x436B23E8, 0x1CC92596, 0x32CA2D8C, 0x0C657A79)
  const V12 := Regs(0xF71FC5A9, 0x4798A3F4, 0x8C87346B, 0x8E04ECB9, 0x816FD6E9, 0x436B23E8, 0x1CC92596, 0x32CA2D8C)
  const V13 := Regs(0x87912990, 0xF71FC5A9, 0x4798A3F4, 0x8C87346B, 0x1E578218, 0x816FD6E9, 0x436B23E8, 0x1CC92596)
  const V14 := Regs(0xD932EB16, 0x87912990, 0xF71FC5A9, 0x4798A3F4, 0x745A48DE, 0x1E578218, 0x816FD6E9, 0x436B23E8)
  const V15 := Regs(0xC0645FDE, 0xD932EB16, 0x87912990, 0xF71FC5A9, 0x0B92F20C, 0x745A48DE, 0x1E578218, 0x816FD6E9)
  const V16 := Regs(0xB0FA238E, 0xC0645FDE, 0xD932EB16, 0x87912990, 0x07590DCD, 0x0B92F20C, 0x745A48DE, 0x1E578218)
  const V17 := Regs(0x21DA9A9B, 0xB0FA238E, 0xC0645FDE, 0xD932EB16, 0x8034229C, 0x07590DCD, 0x0B92F20C, 0x745A48DE)
  const V18 := Regs(0xC2FBD9D1, 0x21DA9A9B, 0xB0FA238E, 0xC0645FDE, 0x846EE454, 0x8034229C, 0x07590DCD, 0x0B92F20C)
  const V19 := Regs(0xFE777BBF, 0xC2FBD9D1, 0x21DA9A9B, 0xB0FA238E, 0xCC899961, 0x846EE454, 0x8034229C, 0x07590DCD)
  const V20 := Regs(0xE1F20C33, 0xFE777BBF, 0xC2FBD9D1, 0x21DA9A9B, 0xB0638179, 0xCC899961, 0x846EE454, 0x8034229C)
  const V21 := Regs(0x9DC68B63, 0xE1F20C33, 0xFE777BBF, 0xC2FBD9D1, 0x8ADA8930, 0xB0638179, 0xCC899961, 0x846EE454)
  const V22 := Regs(0xC2606D6D, 0x9DC68B63, 0xE1F20C33, 0xFE777BBF, 0xE1257970, 0x8ADA8930, 0xB0638179, 0xCC899961)
  const V23 := Regs(0xA7A3623F, 0xC2606D6D, 0x9DC68B63, 0xE1F20C33, 0x49F5114A, 0xE1257970, 0x8ADA8930, 0xB0638179)
  const V24 := Regs(0xC5D53D8D, 0xA7A3623F, 0xC2606D6D, 0x9DC68B63, 0xAA47C347, 0x49F5114A, 0xE1257970, 0x8ADA8930)
  const V25 := Regs(0x1C2C2838, 0xC5D53D8D, 0xA7A3623F, 0xC2606D6D, 0x2823EF91, 0xAA47C347, 0x49F5114A, 0xE1257970)
  const V26 := Regs(0xCDE8037D, 0x1C2C2838, 0xC5D53D8D, 0xA7A3623F, 0x14383D8E, 0x2823EF91, 0xAA47C347, 0x49F5114A)
  const V27 := Regs(0xB62EC4BC, 0xCDE8037D, 0x1C2C2838, 0xC5D53D8D, 0xC74C6516, 0x14383D8E, 0x2823EF91, 0xAA47C347)
  const V28 := Regs(0x77D37528, 0xB62EC4BC, 0xCDE8037D, 0x1C2C2838, 0xEDFFBFF8, 0xC74C6516, 0x14383D8E, 0x2823EF91)
  const V29 := Regs(0x363482C9, 0x77D37528, 0xB62EC4BC, 0xCDE8037D, 0x6112A3B7, 0xEDFFBFF8, 0xC74C6516, 0x14383D8E)
  const V30 := Regs(0xA0060B30, 0x363482C9, 0x77D37528, 0xB62EC4BC, 0xADE79437, 0x6112A3B7, 0xEDFFBFF8, 0xC74C6516)
  const V31 := Regs(0xEA992A22, 0xA0060B30, 0x363482C9, 0x77D37528, 0x0109AB3A, 0xADE79437, 0x6112A3B7, 0xEDFFBFF8)
  const V32 := Regs(0x73B33BF5, 0xEA992A22, 0xA0060B30, 0x363482C9, 0xBA591112, 0x0109AB3A, 0xADE79437, 0x6112A3B7)
  const V33 := Regs(0x98E12507, 0x73B33BF5, 0xEA992A22, 0xA0060B30, 0x9CD9F5F6, 0xBA591112, 0x0109AB3A, 0xADE79437)
  const V34 := Regs(0xFE604DF5, 0x98E12507, 0x73B33BF5, 0xEA992A22, 0x59249DD3, 0x9CD9F5F6, 0xBA591112, 0x0109AB3A)
  const V35 := Regs(0xA9A7738C, 0xFE604DF5, 0x98E12507, 0x73B33BF5, 0x085F3833, 0x59249DD3, 0x9CD9F5F6, 0xBA591112)
  const V36 := Regs(0x65A0CFE4, 0xA9A7738C, 0xFE604DF5, 0x98E12507, 0xF4B002D6, 0x085F3833, 0x59249DD3, 0x9CD9F5F6)
  const V37 := Regs(0x41A65CB1, 0x65A0CFE4, 0xA9A7738C, 0xFE604DF5, 0x0772A26B, 0xF4B002D6, 0x085F3833, 0x59249DD3)
  const V38 := Regs(0x34DF1604, 0x41A65CB1, 0x65A0CFE4, 0xA9A7738C, 0xA507A53D, 0x0772A26B, 0xF4B002D6, 0x085F3833)
  const V39 := Regs(0x6DC57A8A, 0x34DF1604, 0x41A65CB1, 0x65A0CFE4, 0xF0781BC8, 0xA507A53D, 0x0772A26B, 0xF4B002D6)
  const V40 := Regs(0x79EA687A, 0x6DC57A8A, 0x34DF1604, 0x41A65CB1, 0x1EFBC0A0, 0xF0781BC8, 0xA507A53D, 0x0772A26B)
  const V41 := Regs(0xD6670766, 0x79EA687A, 0x6DC57A8A, 0x34DF1604, 0x26352D63, 0x1EFBC0A0, 0xF0781BC8, 0xA507A53D)
  const V42 := Regs(0xDF46652F, 0xD6670766, 0x79EA687A, 0x6DC57A8A, 0x838B2711, 0x26352D63, 0x1EFBC0A0, 0xF0781BC8)
  const V43 := Regs(0x17AA0DFE, 0xDF46652F, 0xD6670766, 0x79EA687A, 0xDECD4715, 0x838B2711, 0x26352D63, 0x1EFBC0A0)
  const V44 := Regs(0x9D4BAF93, 0x17AA0DFE, 0xDF46652F, 0xD6670766, 0xFDA24C2E, 0xDECD4715, 0x838B2711, 0x26352D63)
  const V45 := Regs(0x26628815, 0x9D4BAF93, 0x17AA0DFE, 0xDF46652F, 0xA80F11F0, 0xFDA24C2E, 0xDECD4715, 0x838B2711)
  const V46 := Regs(0x72AB4B91, 0x26628815, 0x9D4BAF93, 0x17AA0DFE, 0xB7755DA1, 0xA80F11F0, 0xFDA24C2E, 0xDECD4715)
  const V47 := Regs(0xA14C14B0, 0x72AB4B91, 0x26628815, 0x9D4BAF93, 0xD57B94A9, 0xB7755DA1, 0xA80F11F0, 0xFDA24C2E)
  const V48 := Regs(0x4172328D, 0xA14C14B0, 0x72AB4B91, 0x26628815, 0xFECF0BC6, 0xD57B94A9, 0xB7755DA1, 0xA80F11F0)
  const V49 := Regs(0x05757CEB, 0x4172328D, 0xA14C14B0, 0x72AB4B91, 0xBD714038, 0xFECF0BC6, 0xD57B94A9, 0xB7755DA1)
  const V50 := Regs(0xF11BFAA8, 0x05757CEB, 0x4172328D, 0xA14C14B0, 0x6E5C390C, 0xBD714038, 0xFECF0BC6, 0xD57B94A9)
  const V51 := Regs(0x7A0508A1, 0xF11BFAA8, 0x05757CEB, 0x4172328D, 0x52F1CCF7, 0x6E5C390C, 0xBD714038, 0xFECF0BC6)
  const V52 := Regs(0x886E7A22, 0x7A0508A1, 0xF11BFAA8, 0x05757CEB, 0x49231C1E, 0x52F1CCF7, 0x6E5C390C, 0xBD714038)
  const V53 := Regs(0x101FD28F, 0x886E7A22, 0x7A0508A1, 0xF11BFAA8, 0x529E7D00, 0x49231C1E, 0x52F1CCF7, 0x6E5C390C)
  const V54 := Regs(0xF5702FDB, 0x101FD28F, 0x886E7A22, 0x7A0508A1, 0x9F4787C3, 0x529E7D00, 0x49231C1E, 0x52F1CCF7)
  const V55 := Regs(0x3EC45CDB, 0xF5702FDB, 0x101FD28F, 0x886E7A22, 0xE50E1B4F, 0x9F4787C3, 0x529E7D00, 0x49231C1E)
  const V56 := Regs(0x38CC9913, 0x3EC45CDB, 0xF5702FDB, 0x101FD28F, 0x54CB266B, 0xE50E1B4F, 0x9F4787C3, 0x529E7D00)
  const V57 := Regs(0xFCD1887B, 0x38CC9913, 0x3EC45CDB, 0xF5702FDB, 0x9B5E906C, 0x54CB266B, 0xE50E1B4F, 0x9F4787C3)
  const V58 := Regs(0xC062D46F, 0xFCD1887B, 0x38CC9913, 0x3EC45CDB, 0x7E44008E, 0x9B5E906C, 0x54CB266B, 0xE50E1B4F)
  const V59 := Regs(0xFFB70472, 0xC062D46F, 0xFCD1887B, 0x38CC9913, 0x6D83BFC6, 0x7E44008E, 0x9B5E906C, 0x54CB266B)
  const V60 := Regs(0xB6AE8FFF, 0xFFB70472, 0xC062D46F, 0xFCD1887B, 0xB21BAD3D, 0x6D83BFC6, 0x7E44008E, 0x9B5E906C)
  const V61 := Regs(0xB85E2CE9, 0xB6AE8FFF, 0xFFB70472, 0xC062D46F, 0x961F4894, 0xB21BAD3D, 0x6D83BFC6, 0x7E44008E)
  const V62 := Regs(0x04D24D6C, 0xB85E2CE9, 0xB6AE8FFF, 0xFFB70472, 0x948D25B6, 0x961F4894, 0xB21BAD3D, 0x6D83BFC6)
  const V63 := Regs(0xD39A2165, 0x04D24D6C, 0xB85E2CE9, 0xB6AE8FFF, 0xFB121210, 0x948D25B6, 0x961F4894, 0xB21BAD3D)
  const V64 := Regs(0x506E3058, 0xD39A2165, 0x04D24D6C, 0xB85E2CE9, 0x5EF50F24, 0xFB121210, 0x948D25B6, 0x961F4894)

  function After(m: Block, t: nat): Vars
    requires t <= 64
  {
    Rounds(VarsOf(InitialHash(false)), m, t)
  }

  lemma OneRound(m: Block, t: nat, v: Vars, k: bv32, w: bv32, next: Vars)
    requires t < 64 && After(m, t) == v && K(t) == k && Schedule(m, t) == w
    requires Round(v, k, w) == next
    ensures After(m, t + 1) == next
  {
    hide Round, Schedule, K;
  }

  lemma Constants0()
    ensures K(0) == 0x428A2F98 && K(1) == 0x71374491
    ensures K(2) == 0xB5C0FBCF && K(3) == 0xE9B5DBA5
    ensures K(4) == 0x3956C25B && K(5) == 0x59F111F1
    ensures K(6) == 0x923F82A4 && K(7) == 0xAB1C5ED5
  {
    assert forall i | 0 <= i < 8 :: K(i) == K0[i];
    hide K;
    assert K(0) == K0[0];
    assert K(1) == K0[1];
    assert K(2) == K0[2];
    assert K(3) == K0[3];
    assert K(4) == K0[4];
    assert K(5) == K0[5];
    assert K(6) == K0[6];
    assert K(7) == K0[7];
  }

  lemma Values0()
    ensures Round(V0, 0x428A2F98, 0x61626380) == V1
    ensures Round(V1, 0x71374491, 0x00000000) == V2
    ensures Round(V2, 0xB5C0FBCF, 0x00000000) == V3
    ensures Round(V3, 0xE9B5DBA5, 0x00000000) == V4
    ensures Round(V4, 0x3956C25B, 0x00000000) == V5
    ensures Round(V5, 0x59F111F1, 0x00000000) == V6
    ensures Round(V6, 0x923F82A4, 0x00000000) == V7
    ensures Round(V7, 0xAB1C5ED5, 0x00000000) == V8
  {
  }

  lemma Rounds0(m: Block)
    requires After(m, 0) == V0 && Words0(m)
    ensures After(m, 8) == V8
  {
    hide Schedule, After, K, Round;
    Constants0();
    Values0();
    OneRound(m, 0, V0, 0x428A2F98, 0x61626380, V1);
    OneRound(m, 1, V1, 0x71374491, 0x00000000, V2);
    OneRound(m, 2, V2, 0xB5C0FBCF, 0x00000000, V3);
    OneRound(m, 3, V3, 0xE9B5DBA5, 0x00000000, V4);
    OneRound(m, 4, V4, 0x3956C25B, 0x00000000, V5);
    OneRound(m, 5, V5, 0x59F111F1, 0x00000000, V6);
    OneRound(m, 6, V6, 0x923F82A4, 0x00000000, V7);
    OneRound(m, 7, V7, 0xAB1C5ED5, 0x00000000, V8);
  }

  lemma Constants1()
    ensures K(8) == 0xD807AA98 && K(9) == 0x12835B01
    ensures K(10) == 0x243185BE && K(11) == 0x550C7DC3
    ensures K(12) == 0x72BE5D74 && K(13) == 0x80DEB1FE
    ensures K(14) == 0x9BDC06A7 && K(15) == 0xC19BF174
  {
    assert forall i | 0 <= i < 8 :: K(8 + i) == K1[i];
    hide K;
    assert K(8) == K1[0];
    assert K(9) == K1[1];
    assert K(10) == K1[2];
    assert K(11) == K1[3];
    assert K(12) == K1[4];
    assert K(13) == K1[5];
    assert K(14) == K1[6];
    assert K(15) == K1[7];
  }

  lemma Values1()
    ensures Round(V8, 0xD807AA98, 0x00000000) == V9
    ensures Round(V9, 0x12835B01, 0x00000000) == V10
    ensures Round(V10, 0x243185BE, 0x00000000) == V11
    ensures Round(V11, 0x550C7DC3, 0x00000000) == V12
    ensures Round(V12, 0x72BE5D74, 0x00000000) == V13
    ensures Round(V13, 0x80DEB1FE, 0x00000000) == V14
    ensures Round(V14, 0x9BDC06A7, 0x00000000) == V15
    ensures Round(V15, 0xC19BF174, 0x00000018) == V16
  {
  }

  lemma Rounds8(m: Block)
    requires After(m, 8) == V8 && Words1(m)
    ensures After(m, 16) == V16
  {
    hide Schedule, After, K, Round;
    Constants1();
    Values1();
    OneRound(m, 8, V8, 0xD807AA98, 0x00000000, V9);
    OneRound(m, 9, V9, 0x12835B01, 0x00000000, V10);
    OneRound(m, 10, V10, 0x243185BE, 0x00000000, V11);
    OneRound(m, 11, V11, 0x550C7DC3, 0x00000000, V12);
    OneRound(m, 12, V12, 0x72BE5D74, 0x00000000, V13);
    OneRound(m, 13, V13, 0x80DEB1FE, 0x00000000, V14);
    OneRound(m, 14, V14, 0x9BDC06A7, 0x00000000, V15);
    OneRound(m, 15, V15, 0xC19BF174, 0x00000018, V16);
  }

  lemma Constants2()
    ensures K(16) == 0xE49B69C1 && K(17) == 0xEFBE4786
    ensures K(18) == 0x0FC19DC6 && K(19) == 0x240CA1CC
    ensures K(20) == 0x2DE92C6F && K(21) == 0x4A7484AA
    ensures K(22) == 0x5CB0A9DC && K(23) == 0x76F988DA
  {
    assert forall i | 0 <= i < 8 :: K(16 + i) == K2[i];
    hide K;
    assert K(16) == K2[0];
    assert K(17) == K2[1];
    assert K(18) == K2[2];
    assert K(19) == K2[3];
    assert K(20) == K2[4];
    assert K(21) == K2[5];
    assert K(22) == K2[6];
    assert K(23) == K2[7];
  }

  lemma Values2()
    ensures Round(V16, 0xE49B69C1, 0x61626380) == V17
    ensures Round(V17, 0xEFBE4786, 0x000F0000) == V18
    ensures Round(V18, 0x0FC19DC6, 0x7DA86405) == V19
    ensures Round(V19, 0x240CA1CC, 0x600003C6) == V20
    ensures Round(V20, 0x2DE92C6F, 0x3E9D7B78) == V21
    ensures Round(V21, 0x4A7484AA, 0x0183FC00) == V22
    ensures Round(V22, 0x5CB0A9DC, 0x12DCBFDB) == V23
    ensures Round(V23, 0x76F988DA, 0xE2E2C38E) == V24
  {
  }

  lemma Rounds16(m: Block)
    requires After(m, 16) == V16 && Words2(m)
    ensures After(m, 24) == V24
  {
    hide Schedule, After, K, Round;
    Constants2();
    Values2();
    OneRound(m, 16, V16, 0xE49B69C1, 0x61626380, V17);
    OneRound(m, 17, V17, 0xEFBE4786, 0x000F0000, V18);
    OneRound(m, 18, V18, 0x0FC19DC6, 0x7DA86405, V19);
    OneRound(m, 19, V19, 0x240CA1CC, 0x600003C6, V20);
    OneRound(m, 20, V20, 0x2DE92C6F, 0x3E9D7B78, V21);
    OneRound(m, 21, V21, 0x4A7484AA, 0x0183FC00, V22);
    OneRound(m, 22, V22, 0x5CB0A9DC, 0x12DCBFDB, V23);
    OneRound(m, 23, V23, 0x76F988DA, 0xE2E2C38E, V24);
  }

  lemma Constants3()
    ensures K(24) == 0x983E5152 && K(25) == 0xA831C66D
    ensures K(26) == 0xB00327C8 && K(27) == 0xBF597FC7
    ensures K(28) == 0xC6E00BF3 && K(29) == 0xD5A79147
    ensures K(30) == 0x06CA6351 && K(31) == 0x14292967
  {
    assert forall i | 0 <= i < 8 :: K(24 + i) == K3[i];
    hide K;
    assert K(24) == K3[0];
    assert K(25) == K3[1];
    assert K(26) == K3[2];
    assert K(27) == K3[3];
    assert K(28) == K3[4];
    assert K(29) == K3[5];
    assert K(30) == K3[6];
    assert K(31) == K3[7];
  }

  lemma Values3()
    ensures Round(V24, 0x983E5152, 0xC8215C1A) == V25
    ensures Round(V25, 0xA831C66D, 0xB73679A2) == V26
    ensures Round(V26, 0xB00327C8, 0xE5BC3909) == V27
    ensures Round(V27, 0xBF597FC7, 0x32663C5B) == V28
    ensures Round(V28, 0xC6E00BF3, 0x9D209D67) == V29
    ensures Round(V29, 0xD5A79147, 0xEC8726CB) == V30
    ensures Round(V30, 0x06CA6351, 0x702138A4) == V31
    ensures Round(V31, 0x14292967, 0xD3B7973B) == V32
  {
  }

  lemma Rounds24(m: Block)
    requires After(m, 24) == V24 && Words3(m)
    ensures After(m, 32) == V32
  {
    hide Schedule, After, K, Round;
    Constants3();
    Values3();
    OneRound(m, 24, V24, 0x983E5152, 0xC8215C1A, V25);
    OneRound(m, 25, V25, 0xA831C66D, 0xB73679A2, V26);
    OneRound(m, 26, V26, 0xB00327C8, 0xE5BC3909, V27);
    OneRound(m, 27, V27, 0xBF597FC7, 0x32663C5B, V28);
    OneRound(m, 28, V28, 0xC6E00BF3, 0x9D209D67, V29);
    OneRound(m, 29, V29, 0xD5A79147, 0xEC8726CB, V30);
    OneRound(m, 30, V30, 0x06CA6351, 0x702138A4, V31);
    OneRound(m, 31, V31, 0x14292967, 0xD3B7973B, V32);
  }

  lemma Constants4()
    ensures K(32) == 0x27B70A85 && K(33) == 0x2E1B2138
    ensures K(34) == 0x4D2C6DFC && K(35) == 0x53380D13
    ensures K(36) == 0x650A7354 && K(37) == 0x766A0ABB
    ensures K(38) == 0x81C2C92E && K(39) == 0x92722C85
  {
    assert forall i | 0 <= i < 8 :: K(32 + i) == K4[i];
    hide K;
    assert K(32) == K4[0];
    assert K(33) == K4[1];
    assert K(34) == K4[2];
    assert K(35) == K4[3];
    assert K(36) == K4[4];
    assert K(37) == K4[5];
    assert K(38) == K4[6];
    assert K(39) == K4[7];
  }

  lemma Values4()
    ensures Round(V32, 0x27B70A85, 0x93F5997F) == V33
    ensures Round(V33, 0x2E1B2138, 0x3B68BA73) == V34
    ensures Round(V34, 0x4D2C6DFC, 0xAFF4FFC1) == V35
    ensures Round(V35, 0x53380D13, 0xF10A5C62) == V36
    ensures Round(V36, 0x650A7354, 0x0A8B3996) == V37
    ensures Round(V37, 0x766A0ABB, 0x72AF830A) == V38
    ensures Round(V38, 0x81C2C92E, 0x9409E33E) == V39
    ensures Round(V39, 0x92722C85, 0x24641522) == V40
  {
  }

  lemma Rounds32(m: Block)
    requires After(m, 32) == V32 && Words4(m)
    ensures After(m, 40) == V40
  {
    hide Schedule, After, K, Round;
    Constants4();
    Values4();
    OneRound(m, 32, V32, 0x27B70A85, 0x93F5997F, V33);
    OneRound(m, 33, V33, 0x2E1B2138, 0x3B68BA73, V34);
    OneRound(m, 34, V34, 0x4D2C6DFC, 0xAFF4FFC1, V35);
    OneRound(m, 35, V35, 0x53380D13, 0xF10A5C62, V36);
    OneRound(m, 36, V36, 0x650A7354, 0x0A8B3996, V37);
    OneRound(m, 37, V37, 0x766A0ABB, 0x72AF830A, V38);
    OneRound(m, 38, V38, 0x81C2C92E, 0x9409E33E, V39);
    OneRound(m, 39, V39, 0x92722C85, 0x24641522, V40);
  }

  lemma Constants5()
    ensures K(40) == 0xA2BFE8A1 && K(41) == 0xA81A664B
    ensures K(42) == 0xC24B8B70 && K(43) == 0xC76C51A3
    ensures K(44) == 0xD192E819 && K(45) == 0xD6990624
    ensures K(46) == 0xF40E3585 && K(47) == 0x106AA070
  {
    assert forall i | 0 <= i < 8 :: K(40 + i) == K5[i];
    hide K;
    assert K(40) == K5[0];
    assert K(41) == K5[1];
    assert K(42) == K5[2];
    assert K(43) == K5[3];
    assert K(44) == K5[4];
    assert K(45) == K5[5];
    assert K(46) == K5[6];
    assert K(47) == K5[7];
  }

  lemma Values5()
    ensures Round(V40, 0xA2BFE8A1, 0x9F47BF94) == V41
    ensures Round(V41, 0xA81A664B, 0xF0A64F5A) == V42
    ensures Round(V42, 0xC24B8B70, 0x3E246A79) == V43
    ensures Round(V43, 0xC76C51A3, 0x27333BA3) == V44
    ensures Round(V44, 0xD192E819, 0x0C4763F2) == V45
    ensures Round(V45, 0xD6990624, 0x840ABF27) == V46
    ensures Round(V46, 0xF40E3585, 0x7A290D5D) == V47
    ensures Round(V47, 0x106AA070, 0x065C43DA) == V48
  {
  }

  lemma Rounds40(m: Block)
    requires After(m, 40) == V40 && Words5(m)
    ensures After(m, 48) == V48
  {
    hide Schedule, After, K, Round;
    Constants5();
    Values5();
    OneRound(m, 40, V40, 0xA2BFE8A1, 0x9F47BF94, V41);
    OneRound(m, 41, V41, 0xA81A664B, 0xF0A64F5A, V42);
    OneRound(m, 42, V42, 0xC24B8B70, 0x3E246A79, V43);
    OneRound(m, 43, V43, 0xC76C51A3, 0x27333BA3, V44);
    OneRound(m, 44, V44, 0xD192E819, 0x0C4763F2, V45);
    OneRound(m, 45, V45, 0xD6990624, 0x840ABF27, V46);
    OneRound(m, 46, V46, 0xF40E3585, 0x7A290D5D, V47);
    OneRound(m, 47, V47, 0x106AA070, 0x065C43DA, V48);
  }

  lemma Constants6()
    ensures K(48) == 0x19A4C116 && K(49) == 0x1E376C08
    ensures K(50) == 0x2748774C && K(51) == 0x34B0BCB5
    ensures K(52) == 0x391C0CB3 && K(53) == 0x4ED8AA4A
    ensures K(54) == 0x5B9CCA4F && K(55) == 0x682E6FF3
  {
    assert forall i | 0 <= i < 8 :: K(48 + i) == K6[i];
    hide K;
    assert K(48) == K6[0];
    assert K(49) == K6[1];
    assert K(50) == K6[2];
    assert K(51) == K6[3];
    assert K(52) == K6[4];
    assert K(53) == K6[5];
    assert K(54) == K6[6];
    assert K(55) == K6[7];
  }

  lemma Values6()
    ensures Round(V48, 0x19A4C116, 0xFB3E89CB) == V49
    ensures Round(V49, 0x1E376C08, 0xCC7617DB) == V50
    ensures Round(V50, 0x2748774C, 0xB9E66C34) == V51
    ensures Round(V51, 0x34B0BCB5, 0xA9993667) == V52
    ensures Round(V52, 0x391C0CB3, 0x84BADEDD) == V53
    ensures Round(V53, 0x4ED8AA4A, 0xC21462BC) == V54
    ensures Round(V54, 0x5B9CCA4F, 0x1487472C) == V55
    ensures Round(V55, 0x682E6FF3, 0xB20F7A99) == V56
  {
  }

  lemma Rounds48(m: Block)
    requires After(m, 48) == V48 && Words6(m)
    ensures After(m, 56) == V56
  {
    hide Schedule, After, K, Round;
    Constants6();
    Values6();
    OneRound(m, 48, V48, 0x19A4C116, 0xFB3E89CB, V49);
    OneRound(m, 49, V49, 0x1E376C08, 0xCC7617DB, V50);
    OneRound(m, 50, V50, 0x2748774C, 0xB9E66C34, V51);
    OneRound(m, 51, V51, 0x34B0BCB5, 0xA9993667, V52);
    OneRound(m, 52, V52, 0x391C0CB3, 0x84BADEDD, V53);
    OneRound(m, 53, V53, 0x4ED8AA4A, 0xC21462BC, V54);
    OneRound(m, 54, V54, 0x5B9CCA4F, 0x1487472C, V55);
    OneRound(m, 55, V55, 0x682E6FF3, 0xB20F7A99, V56);
  }

  lemma Constants7()
    ensures K(56) == 0x748F82EE && K(57) == 0x78A5636F
    ensures K(58) == 0x84C87814 && K(59) == 0x8CC70208
    ensures K(60) == 0x90BEFFFA && K(61) == 0xA4506CEB
    ensures K(62) == 0xBEF9A3F7 && K(63) == 0xC67178F2
  {
    assert forall i | 0 <= i < 8 :: K(56 + i) == K7[i];
    hide K;
    assert K(56) == K7[0];
    assert K(57) == K7[1];
    assert K(58) == K7[2];
    assert K(59) == K7[3];
    assert K(60) == K7[4];
    assert K(61) == K7[5];
    assert K(62) == K7[6];
    assert K(63) == K7[7];
  }

  lemma Values7()
    ensures Round(V56, 0x748F82EE, 0xEF57B9CD) == V57
    ensures Round(V57, 0x78A5636F, 0xEBE6B238) == V58
    ensures Round(V58, 0x84C87814, 0x9FE3095E) == V59
    ensures Round(V59, 0x8CC70208, 0x78BC8D4B) == V60
    ensures Round(V60, 0x90BEFFFA, 0xA43FCF15) == V61
    ensures Round(V61, 0xA4506CEB, 0x668B2FF8) == V62
    ensures Round(V62, 0xBEF9A3F7, 0xEEABA2CC) == V63
    ensures Round(V63, 0xC67178F2, 0x12B1EDEB) == V64
  {
  }

  lemma Rounds56(m: Block)
    requires After(m, 56) == V56 && Words7(m)
    ensures After(m, 64) == V64
  {
    hide Schedule, After, K, Round;
    Constants7();
    Values7();
    OneRound(m, 56, V56, 0x748F82EE, 0xEF57B9CD, V57);
    OneRound(m, 57, V57, 0x78A5636F, 0xEBE6B238, V58);
    OneRound(m, 58, V58, 0x84C87814, 0x9FE3095E, V59);
    OneRound(m, 59, V59, 0x8CC70208, 0x78BC8D4B, V60);
    OneRound(m, 60, V60, 0x90BEFFFA, 0xA43FCF15, V61);
    OneRound(m, 61, V61, 0xA4506CEB, 0x668B2FF8, V62);
    OneRound(m, 62, V62, 0xBEF9A3F7, 0xEEABA2CC, V63);
    OneRound(m, 63, V63, 0xC67178F2, 0x12B1EDEB, V64);
  }

  lemma Start(m: Block)
    ensures After(m, 0) == V0
  {
  }

  lemma End(m: Block)
    requires After(m, 64) == V64
    ensures Compress(InitialHash(false), m) == [
              0xBA7816BF, 0x8F01CFEA, 0x414140DE, 0x5DAE2223,
              0xB00361A3, 0x96177A9C, 0xB410FF61, 0xF20015AD
            ]
  {
    hide Rounds;
    assert InitialHash(false) == [V0.a, V0.b, V0.c, V0.d, V0.e, V0.f, V0.g, V0.h];
    assert Add(0x6A09E667, 0x506E3058) == 0xBA7816BF;
    assert Add(0xBB67AE85, 0xD39A2165) == 0x8F01CFEA;
    assert Add(0x3C6EF372, 0x04D24D6C) == 0x414140DE;
    assert Add(0xA54FF53A, 0xB85E2CE9) == 0x5DAE2223;
    assert Add(0x510E527F, 0x5EF50F24) == 0xB00361A3;
    assert Add(0x9B05688C, 0xFB121210) == 0x96177A9C;
    assert Add(0x1F83D9AB, 0x948D25B6) == 0xB410FF61;
    assert Add(0x5BE0CD19, 0x961F4894) == 0xF20015AD;
  }

  lemma Compressed(m: Block)
    requires m == PaddedAbc()
    ensures Compress(InitialHash(false), m) == [
              0xBA7816BF, 0x8F01CFEA, 0x414140DE, 0x5DAE2223,
              0xB00361A3, 0x96177A9C, 0xB410FF61, 0xF20015AD
            ]
  {
    hide Schedule, After, Compress;
    Start(m);
    First(m);
    Later2(m);
    Later3(m);
    Later4(m);
    Later5(m);
    Later6(m);
    Later7(m);
    Rounds0(m);
    Rounds8(m);
    Rounds16(m);
    Rounds24(m);
    Rounds32(m);
    Rounds40(m);
    Rounds48(m);
    Rounds56(m);
    End(m);
  }

  /** The padding of three bytes. */
  lemma Padded()
    ensures Pad(ABC) == PaddedAbc()
  {
    assert ZeroBytes(3) == 52;
  }

  /** A message of one block. */
  lemma OneBlock(h: Hash, m: Block)
    ensures HashBlocks(h, m) == Compress(h, m)
  {
    hide Compress;
    assert m[..64] == m && m[64..] == [];
  }

  lemma Bytes(w: bv32, n: u32, rest: seq<bv32>)
    requires w as int == n
    ensures Concat([w] + rest) == Be32(n) + Concat(rest)
  {
    assert ([w] + rest)[1..] == rest;
  }

  lemma FourBytes(a: bv32, b: bv32, c: bv32, d: bv32, na: u32, nb: u32, nc: u32, nd: u32, rest: seq<bv32>)
    requires a as int == na && b as int == nb && c as int == nc && d as int == nd
    ensures Concat([a, b, c, d] + rest) == Be32(na) + Be32(nb) + Be32(nc) + Be32(nd) + Concat(rest)
  {
    hide Concat, Be32;
    assert [a, b, c, d] + rest == [a] + ([b] + ([c] + ([d] + rest)));
    Bytes(a, na, [b] + ([c] + ([d] + rest)));
    Bytes(b, nb, [c] + ([d] + rest));
    Bytes(c, nc, [d] + rest);
    Bytes(d, nd, rest);
  }

  const FRONT: seq<u8> := [
    0xBA, 0x78, 0x16, 0xBF, 0x8F, 0x01, 0xCF, 0xEA,
    0x41, 0x41, 0x40, 0xDE, 0x5D, 0xAE, 0x22, 0x23
  ]
  const BACK: seq<u8> := [
    0xB0, 0x03, 0x61, 0xA3, 0x96, 0x17, 0x7A, 0x9C,
    0xB4, 0x10, 0xFF, 0x61, 0xF2, 0x00, 0x15, 0xAD
  ]

  lemma WordBytes()
    ensures Be32(0xBA7816BF) == [0xBA, 0x78, 0x16, 0xBF] && Be32(0x8F01CFEA) == [0x8F, 0x01, 0xCF, 0xEA]
    ensures Be32(0x414140DE) == [0x41, 0x41, 0x40, 0xDE] && Be32(0x5DAE2223) == [0x5D, 0xAE, 0x22, 0x23]
    ensures Be32(0xB00361A3) == [0xB0, 0x03, 0x61, 0xA3] && Be32(0x96177A9C) == [0x96, 0x17, 0x7A, 0x9C]
    ensures Be32(0xB410FF61) == [0xB4, 0x10, 0xFF, 0x61] && Be32(0xF20015AD) == [0xF2, 0x00, 0x15, 0xAD]
  {
  }

  lemma FrontBytes()
    ensures Be32(0xBA7816BF) + Be32(0x8F01CFEA) + Be32(0x414140DE) + Be32(0x5DAE2223) == FRONT
  {
    hide Be32;
    WordBytes();
  }

  lemma BackBytes()
    ensures Be32(0xB00361A3) + Be32(0x96177A9C) + Be32(0xB410FF61) + Be32(0xF20015AD) == BACK
  {
    hide Be32;
    WordBytes();
  }

  lemma FrontWords(rest: seq<bv32>)
    ensures Concat([0xBA7816BF, 0x8F01CFEA, 0x414140DE, 0x5DAE2223] + rest) == FRONT + Concat(rest)
  {
    FrontBytes();
    hide Concat, Be32, FRONT, BACK;
    FourBytes(0xBA7816BF, 0x8F01CFEA, 0x414140DE, 0x5DAE2223,
      0xBA7816BF, 0x8F01CFEA, 0x414140DE, 0x5DAE2223, rest);
  }

  lemma BackWords(rest: seq<bv32>)
    ensures Concat([0xB00361A3, 0x96177A9C, 0xB410FF61, 0xF20015AD] + rest) == BACK + Concat(rest)
  {
    BackBytes();
    hide Concat, Be32, FRONT, BACK;
    FourBytes(0xB00361A3, 0x96177A9C, 0xB410FF61, 0xF20015AD,
      0xB00361A3, 0x96177A9C, 0xB410FF61, 0xF20015AD, rest);
  }

  lemma DigestBytes()
    ensures Concat([0xBA7816BF, 0x8F01CFEA, 0x414140DE, 0x5DAE2223,
                    0xB00361A3, 0x96177A9C, 0xB410FF61, 0xF20015AD])
            == FRONT + BACK
  {
    var back: seq<bv32> := [0xB00361A3, 0x96177A9C, 0xB410FF61, 0xF20015AD];
    assert Concat([]) == [];
    hide Concat, FRONT, BACK;
    FrontWords(back);
    BackWords([]);
    assert back + [] == back && BACK + [] == BACK;
    assert [0xBA7816BF, 0x8F01CFEA, 0x414140DE, 0x5DAE2223] + back
           == [0xBA7816BF, 0x8F01CFEA, 0x414140DE, 0x5DAE2223, 0xB00361A3, 0x96177A9C, 0xB410FF61, 0xF20015AD];
  }

  /** The digest of "abc". */
  lemma DigestOfAbc()
    ensures Digest(false, ABC) == FRONT + BACK
  {
    hide Compress, HashBlocks, Concat, InitialHash, Pad;
    var m := PaddedAbc();
    Padded();
    Compressed(m);
    OneBlock(InitialHash(false), m);
    DigestBytes();
  }
}
