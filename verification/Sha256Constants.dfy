/** Where the constants of SHA-256 and SHA-224 come from: bits of the roots of the first primes
    (sections 4.2.2 and 5.3.2 of FIPS 180-2, and its change notice 1 for SHA-224). */
module Sha256Constants {
  import opened Words
  import opened Arith
  import opened Sha256Spec

  ghost predicate Prime(n: nat)
  {
    n >= 2 && forall d | 2 <= d < n :: n % d != 0
  }

  /** No prime up to 17 divides `n`, other than itself. */
  predicate Sieved(n: nat)
  {
    && n >= 2 && (n % 2 != 0 || n == 2) && (n % 3 != 0 || n == 3) && (n % 5 != 0 || n == 5) && (n % 7 != 0 || n == 7)
    && (n % 11 != 0 || n == 11) && (n % 13 != 0 || n == 13) && (n % 17 != 0 || n == 17)
  }

  /** Below 18 squared the sieve keeps exactly the primes. */
  lemma SieveIsPrime(n: nat)
    requires n < 324
    ensures Sieved(n) <==> Prime(n)
  {
    if n >= 2 && !Prime(n) {
      var d :| 2 <= d < n && n % d == 0;
      var e := SmallDivisor(n, d);
      FactorOf(n, e);
    }
  }

  /** Of a divisor and its cofactor one is at most the square root. */
  lemma SmallDivisor(n: nat, d: nat) returns (e: nat)
    requires 2 <= d < n && n % d == 0
    ensures 2 <= e < n && e * e <= n && n % e == 0
  {
    var q := n / d;
    DivBounds(n, d);
    if q < 2 {
      MulMonotone(q, 1, d);
    }
    e := if d <= q then d else q;
    DivUnique(n, q, d);
    MulMonotone(e, if d <= q then q else d, e);
    MulMonotone(2, q, d);
  }

  /** A divisor below 18 has a prime factor the sieve looks at. */
  lemma FactorOf(n: nat, e: nat)
    requires 2 <= e < n < 324 && e * e <= n && n % e == 0
    ensures !Sieved(n)
  {
    if e >= 18 {
      MulMonotone(18, e, 18);
      MulMonotone(18, e, e);
    }
    DivBounds(n, e);
    if n / e < 2 {
      MulMonotone(n / e, 1, e);
    }
    var f := SieveFactor(e);
    FactorDivides(n / e, e, f);
  }

  lemma SieveFactor(e: nat) returns (f: nat)
    requires 2 <= e < 18
    ensures 2 <= f <= e && e % f == 0 && (f == 2 || f == 3 || f == 5 || f == 7 || f == 11 || f == 13 || f == 17)
  {
    f := if e % 2 == 0 then 2 else if e % 3 == 0 then 3 else if e % 5 == 0 then 5 else e;
  }

  lemma FactorDivides(q: nat, e: nat, f: nat)
    requires 2 <= q && 2 <= f <= e && e % f == 0
    ensures q * e % f == 0 && q * e > f
  {
    DivBounds(e, f);
    assert q * e == q * (e / f) * f;
    DivUnique(q * e, f, q * (e / f));
    MulMonotone(2, q, e);
  }

  const P0: seq<nat> := [2, 3, 5, 7, 11, 13, 17, 19]
  const P1: seq<nat> := [23, 29, 31, 37, 41, 43, 47, 53]
  const P2: seq<nat> := [59, 61, 67, 71, 73, 79, 83, 89]
  const P3: seq<nat> := [97, 101, 103, 107, 109, 113, 127, 131]
  const P4: seq<nat> := [137, 139, 149, 151, 157, 163, 167, 173]
  const P5: seq<nat> := [179, 181, 191, 193, 197, 199, 211, 223]
  const P6: seq<nat> := [227, 229, 233, 239, 241, 251, 257, 263]
  const P7: seq<nat> := [269, 271, 277, 281, 283, 293, 307, 311]

  /** The first 64 primes. */
  function PrimeAt(t: nat): nat
    requires t < 64
  {
    var i := t % 8;
    match t / 8
    case 0 => P0[i] case 1 => P1[i] case 2 => P2[i] case 3 => P3[i]
    case 4 => P4[i] case 5 => P5[i] case 6 => P6[i] case _ => P7[i]
  }

  /** The first number from `n` that the sieve keeps, if there is one below `limit`. */
  function NextSieved(n: nat, limit: nat): nat
    requires n <= limit
    decreases limit - n
  {
    if n == limit || Sieved(n) then n else NextSieved(n + 1, limit)
  }

  lemma {:induction false} NextSievedMeans(n: nat, limit: nat)
    requires n <= limit
    ensures var q := NextSieved(n, limit);
            n <= q <= limit && (q < limit ==> Sieved(q)) && forall m | n <= m < q :: !Sieved(m)
    decreases limit - n
  {
    if n < limit && !Sieved(n) {
      NextSievedMeans(n + 1, limit);
    }
  }

  /** Entry `t` is the first prime behind the entry before it. */
  predicate InOrder(t: nat)
    requires t < 64
  {
    var from := if t == 0 then 0 else PrimeAt(t - 1) + 1;
    from < PrimeAt(t) + 1 < 324 && NextSieved(from, 324) == PrimeAt(t)
  }

  lemma PrimesFrom0(t: nat)
    requires 0 <= t < 4
    ensures InOrder(t)
  {
    assert NextSieved(0, 324) == 2;
    assert NextSieved(3, 324) == 3;
    assert NextSieved(4, 324) == 5;
    assert NextSieved(6, 324) == 7;
  }

  lemma PrimesFrom4(t: nat)
    requires 4 <= t < 8
    ensures InOrder(t)
  {
    assert NextSieved(8, 324) == 11;
    assert NextSieved(12, 324) == 13;
    assert NextSieved(14, 324) == 17;
    assert NextSieved(18, 324) == 19;
  }

  lemma PrimesFrom8(t: nat)
    requires 8 <= t < 12
    ensures InOrder(t)
  {
    assert NextSieved(20, 324) == 23;
    assert NextSieved(28, 324) == 29; assert NextSieved(24, 324) == 29;
    assert NextSieved(30, 324) == 31;
    assert NextSieved(36, 324) == 37; assert NextSieved(32, 324) == 37;
  }

  lemma PrimesFrom12(t: nat)
    requires 12 <= t < 16
    ensures InOrder(t)
  {
    assert NextSieved(38, 324) == 41;
    assert NextSieved(42, 324) == 43;
    assert NextSieved(44, 324) == 47;
    assert NextSieved(52, 324) == 53; assert NextSieved(48, 324) == 53;
  }

  lemma PrimesFrom16(t: nat)
    requires 16 <= t < 20
    ensures InOrder(t)
  {
    assert NextSieved(58, 324) == 59; assert NextSieved(54, 324) == 59;
    assert NextSieved(60, 324) == 61;
    assert NextSieved(66, 324) == 67; assert NextSieved(62, 324) == 67;
    assert NextSieved(68, 324) == 71;
  }

  lemma PrimesFrom20(t: nat)
    requires 20 <= t < 24
    ensures InOrder(t)
  {
    assert NextSieved(72, 324) == 73;
    assert NextSieved(78, 324) == 79; assert NextSieved(74, 324) == 79;
    assert NextSieved(80, 324) == 83;
    assert NextSieved(88, 324) == 89; assert NextSieved(84, 324) == 89;
  }

  lemma PrimesFrom24(t: nat)
    requires 24 <= t < 28
    ensures InOrder(t)
  {
    assert NextSieved(94, 324) == 97; assert NextSieved(90, 324) == 97;
    assert NextSieved(98, 324) == 101;
    assert NextSieved(102, 324) == 103;
    assert NextSieved(104, 324) == 107;
  }

  lemma PrimesFrom28(t: nat)
    requires 28 <= t < 32
    ensures InOrder(t)
  {
    assert NextSieved(108, 324) == 109;
    assert NextSieved(110, 324) == 113;
    assert NextSieved(126, 324) == 127; assert NextSieved(122, 324) == 127; assert NextSieved(118, 324) == 127;
    assert NextSieved(114, 324) == 127;
    assert NextSieved(128, 324) == 131;
  }

  lemma PrimesFrom32(t: nat)
    requires 32 <= t < 36
    ensures InOrder(t)
  {
    assert NextSieved(136, 324) == 137; assert NextSieved(132, 324) == 137;
    assert NextSieved(138, 324) == 139;
    assert NextSieved(148, 324) == 149; assert NextSieved(144, 324) == 149; assert NextSieved(140, 324) == 149;
    assert NextSieved(150, 324) == 151;
  }

  lemma PrimesFrom36(t: nat)
    requires 36 <= t < 40
    ensures InOrder(t)
  {
    assert NextSieved(156, 324) == 157; assert NextSieved(152, 324) == 157;
    assert NextSieved(162, 324) == 163; assert NextSieved(158, 324) == 163;
    assert NextSieved(164, 324) == 167;
    assert NextSieved(172, 324) == 173; assert NextSieved(168, 324) == 173;
  }

  lemma PrimesFrom40(t: nat)
    requires 40 <= t < 44
    ensures InOrder(t)
  {
    assert NextSieved(178, 324) == 179; assert NextSieved(174, 324) == 179;
    assert NextSieved(180, 324) == 181;
    assert NextSieved(190, 324) == 191; assert NextSieved(186, 324) == 191; assert NextSieved(182, 324) == 191;
    assert NextSieved(192, 324) == 193;
  }

  lemma PrimesFrom44(t: nat)
    requires 44 <= t < 48
    ensures InOrder(t)
  {
    assert NextSieved(194, 324) == 197;
    assert NextSieved(198, 324) == 199;
    assert NextSieved(208, 324) == 211; assert NextSieved(204, 324) == 211; assert NextSieved(200, 324) == 211;
    assert NextSieved(220, 324) == 223; assert NextSieved(216, 324) == 223; assert NextSieved(212, 324) == 223;
  }

  lemma PrimesFrom48(t: nat)
    requires 48 <= t < 52
    ensures InOrder(t)
  {
    assert NextSieved(224, 324) == 227;
    assert NextSieved(228, 324) == 229;
    assert NextSieved(230, 324) == 233;
    assert NextSieved(238, 324) == 239; assert NextSieved(234, 324) == 239;
  }

  lemma PrimesFrom52(t: nat)
    requires 52 <= t < 56
    ensures InOrder(t)
  {
    assert NextSieved(240, 324) == 241;
    assert NextSieved(250, 324) == 251; assert NextSieved(246, 324) == 251; assert NextSieved(242, 324) == 251;
    assert NextSieved(256, 324) == 257; assert NextSieved(252, 324) == 257;
    assert NextSieved(262, 324) == 263; assert NextSieved(258, 324) == 263;
  }

  lemma PrimesFrom56(t: nat)
    requires 56 <= t < 60
    ensures InOrder(t)
  {
    assert NextSieved(268, 324) == 269; assert NextSieved(264, 324) == 269;
    assert NextSieved(270, 324) == 271;
    assert NextSieved(276, 324) == 277; assert NextSieved(272, 324) == 277;
    assert NextSieved(278, 324) == 281;
  }

  lemma PrimesFrom60(t: nat)
    requires 60 <= t < 64
    ensures InOrder(t)
  {
    assert NextSieved(282, 324) == 283;
    assert NextSieved(292, 324) == 293; assert NextSieved(288, 324) == 293; assert NextSieved(284, 324) == 293;
    assert NextSieved(306, 324) == 307; assert NextSieved(302, 324) == 307; assert NextSieved(298, 324) == 307;
    assert NextSieved(294, 324) == 307;
    assert NextSieved(308, 324) == 311;
  }

  /** The table holds the primes in order from the first on, none left out. */
  lemma ConsecutivePrimes(t: nat, n: nat)
    requires t < 64
    ensures Prime(PrimeAt(t))
    ensures n < PrimeAt(t) && (t > 0 ==> PrimeAt(t - 1) < n) ==> !Prime(n)
    ensures t > 0 ==> PrimeAt(t - 1) < PrimeAt(t)
  {
    hide Prime, Sieved, NextSieved, PrimeAt;
    var from := if t == 0 then 0 else PrimeAt(t - 1) + 1;
    NextInTable(t);
    NextSievedMeans(from, 324);
    SieveIsPrime(PrimeAt(t));
    if from <= n < PrimeAt(t) {
      SieveIsPrime(n);
    }
  }

  lemma NextInTable(t: nat)
    requires t < 64
    ensures InOrder(t)
  {
    hide InOrder;
    match t / 4
    case 0 => PrimesFrom0(t);
    case 1 => PrimesFrom4(t);
    case 2 => PrimesFrom8(t);
    case 3 => PrimesFrom12(t);
    case 4 => PrimesFrom16(t);
    case 5 => PrimesFrom20(t);
    case 6 => PrimesFrom24(t);
    case 7 => PrimesFrom28(t);
    case 8 => PrimesFrom32(t);
    case 9 => PrimesFrom36(t);
    case 10 => PrimesFrom40(t);
    case 11 => PrimesFrom44(t);
    case 12 => PrimesFrom48(t);
    case 13 => PrimesFrom52(t);
    case 14 => PrimesFrom56(t);
    case _ => PrimesFrom60(t);
  }

  /** `k` is the first 32 bits of the fractional part of the cube root of `p`. */
  ghost predicate CubeBits(p: nat, k: bv32)
  {
    exists c: nat :: CubeRootIs(p, c, k)
  }

  /** The cube root of `p`, scaled by 2^32 and rounded down, is `c` followed by `k`. */
  predicate CubeRootIs(p: nat, c: nat, k: bv32)
  {
    var r := c * WORD + k as int;
    var n := p * WORD * WORD * WORD;
    r * r * r <= n < (r + 1) * (r + 1) * (r + 1)
  }

  /** The test on the number `n` that the word `k` stands for. */
  lemma CubeRoot(p: nat, c: nat, k: bv32, n: nat)
    requires k as int == n
    requires (c * WORD + n) * (c * WORD + n) * (c * WORD + n) <= p * WORD * WORD * WORD
    requires p * WORD * WORD * WORD < (c * WORD + n + 1) * (c * WORD + n + 1) * (c * WORD + n + 1)
    ensures CubeBits(p, k)
  {
    assert CubeRootIs(p, c, k);
  }

  lemma CubeRow0(i: nat)
    requires i < 8
    ensures CubeBits(P0[i], K0[i])
  {
    hide CubeBits;
    CubeRoot(P0[0], 1, K0[0], 0x428A2F98);
    CubeRoot(P0[1], 1, K0[1], 0x71374491);
    CubeRoot(P0[2], 1, K0[2], 0xB5C0FBCF);
    CubeRoot(P0[3], 1, K0[3], 0xE9B5DBA5);
    CubeRoot(P0[4], 2, K0[4], 0x3956C25B);
    CubeRoot(P0[5], 2, K0[5], 0x59F111F1);
    CubeRoot(P0[6], 2, K0[6], 0x923F82A4);
    CubeRoot(P0[7], 2, K0[7], 0xAB1C5ED5);
  }

  lemma CubeRow1(i: nat)
    requires i < 8
    ensures CubeBits(P1[i], K1[i])
  {
    hide CubeBits;
    CubeRoot(P1[0], 2, K1[0], 0xD807AA98);
    CubeRoot(P1[1], 3, K1[1], 0x12835B01);
    CubeRoot(P1[2], 3, K1[2], 0x243185BE);
    CubeRoot(P1[3], 3, K1[3], 0x550C7DC3);
    CubeRoot(P1[4], 3, K1[4], 0x72BE5D74);
    CubeRoot(P1[5], 3, K1[5], 0x80DEB1FE);
    CubeRoot(P1[6], 3, K1[6], 0x9BDC06A7);
    CubeRoot(P1[7], 3, K1[7], 0xC19BF174);
  }

  lemma CubeRow2(i: nat)
    requires i < 8
    ensures CubeBits(P2[i], K2[i])
  {
    hide CubeBits;
    CubeRoot(P2[0], 3, K2[0], 0xE49B69C1);
    CubeRoot(P2[1], 3, K2[1], 0xEFBE4786);
    CubeRoot(P2[2], 4, K2[2], 0x0FC19DC6);
    CubeRoot(P2[3], 4, K2[3], 0x240CA1CC);
    CubeRoot(P2[4], 4, K2[4], 0x2DE92C6F);
    CubeRoot(P2[5], 4, K2[5], 0x4A7484AA);
    CubeRoot(P2[6], 4, K2[6], 0x5CB0A9DC);
    CubeRoot(P2[7], 4, K2[7], 0x76F988DA);
  }

  lemma CubeRow3(i: nat)
    requires i < 8
    ensures CubeBits(P3[i], K3[i])
  {
    hide CubeBits;
    CubeRoot(P3[0], 4, K3[0], 0x983E5152);
    CubeRoot(P3[1], 4, K3[1], 0xA831C66D);
    CubeRoot(P3[2], 4, K3[2], 0xB00327C8);
    CubeRoot(P3[3], 4, K3[3], 0xBF597FC7);
    CubeRoot(P3[4], 4, K3[4], 0xC6E00BF3);
    CubeRoot(P3[5], 4, K3[5], 0xD5A79147);
    CubeRoot(P3[6], 5, K3[6], 0x06CA6351);
    CubeRoot(P3[7], 5, K3[7], 0x14292967);
  }

  lemma CubeRow4(i: nat)
    requires i < 8
    ensures CubeBits(P4[i], K4[i])
  {
    hide CubeBits;
    CubeRoot(P4[0], 5, K4[0], 0x27B70A85);
    CubeRoot(P4[1], 5, K4[1], 0x2E1B2138);
    CubeRoot(P4[2], 5, K4[2], 0x4D2C6DFC);
    CubeRoot(P4[3], 5, K4[3], 0x53380D13);
    CubeRoot(P4[4], 5, K4[4], 0x650A7354);
    CubeRoot(P4[5], 5, K4[5], 0x766A0ABB);
    CubeRoot(P4[6], 5, K4[6], 0x81C2C92E);
    CubeRoot(P4[7], 5, K4[7], 0x92722C85);
  }

  lemma CubeRow5(i: nat)
    requires i < 8
    ensures CubeBits(P5[i], K5[i])
  {
    hide CubeBits;
    CubeRoot(P5[0], 5, K5[0], 0xA2BFE8A1);
    CubeRoot(P5[1], 5, K5[1], 0xA81A664B);
    CubeRoot(P5[2], 5, K5[2], 0xC24B8B70);
    CubeRoot(P5[3], 5, K5[3], 0xC76C51A3);
    CubeRoot(P5[4], 5, K5[4], 0xD192E819);
    CubeRoot(P5[5], 5, K5[5], 0xD6990624);
    CubeRoot(P5[6], 5, K5[6], 0xF40E3585);
    CubeRoot(P5[7], 6, K5[7], 0x106AA070);
  }

  lemma CubeRow6(i: nat)
    requires i < 8
    ensures CubeBits(P6[i], K6[i])
  {
    hide CubeBits;
    CubeRoot(P6[0], 6, K6[0], 0x19A4C116);
    CubeRoot(P6[1], 6, K6[1], 0x1E376C08);
    CubeRoot(P6[2], 6, K6[2], 0x2748774C);
    CubeRoot(P6[3], 6, K6[3], 0x34B0BCB5);
    CubeRoot(P6[4], 6, K6[4], 0x391C0CB3);
    CubeRoot(P6[5], 6, K6[5], 0x4ED8AA4A);
    CubeRoot(P6[6], 6, K6[6], 0x5B9CCA4F);
    CubeRoot(P6[7], 6, K6[7], 0x682E6FF3);
  }

  lemma CubeRow7(i: nat)
    requires i < 8
    ensures CubeBits(P7[i], K7[i])
  {
    hide CubeBits;
    CubeRoot(P7[0], 6, K7[0], 0x748F82EE);
    CubeRoot(P7[1], 6, K7[1], 0x78A5636F);
    CubeRoot(P7[2], 6, K7[2], 0x84C87814);
    CubeRoot(P7[3], 6, K7[3], 0x8CC70208);
    CubeRoot(P7[4], 6, K7[4], 0x90BEFFFA);
    CubeRoot(P7[5], 6, K7[5], 0xA4506CEB);
    CubeRoot(P7[6], 6, K7[6], 0xBEF9A3F7);
    CubeRoot(P7[7], 6, K7[7], 0xC67178F2);
  }

  /** Section 4.2.2: constant `t` comes from the cube root of the prime number `t`. */
  lemma CubeRoots(t: nat)
    requires t < 64
    ensures CubeBits(PrimeAt(t), K(t))
  {
    hide CubeBits;
    var i := t % 8;
    match t / 8
    case 0 => CubeRow0(i);
    case 1 => CubeRow1(i);
    case 2 => CubeRow2(i);
    case 3 => CubeRow3(i);
    case 4 => CubeRow4(i);
    case 5 => CubeRow5(i);
    case 6 => CubeRow6(i);
    case _ => CubeRow7(i);
  }

  predicate SquareRootIs(p: nat, scale: nat, c: nat, w: bv32)
  {
    var r := c * WORD + w as int;
    r * r <= p * scale * scale < (r + 1) * (r + 1)
  }

  /** `w` is the last 32 bits of the square root of `p`, scaled and rounded down. */
  ghost predicate SquareBits(p: nat, scale: nat, w: bv32)
  {
    exists c: nat :: SquareRootIs(p, scale, c, w)
  }

  /** Section 5.3.2: the initial hash of SHA-256 is the first 32 bits of the fractional parts of
      the square roots of the first eight primes. */
  lemma SquareRoots256(i: nat)
    requires i < 8
    ensures SquareBits(PrimeAt(i), WORD, InitialHash(false)[i])
  {
    assert SquareRootIs(P0[0], WORD, 1, IV256[0]);
    assert SquareRootIs(P0[1], WORD, 1, IV256[1]);
    assert SquareRootIs(P0[2], WORD, 2, IV256[2]);
    assert SquareRootIs(P0[3], WORD, 2, IV256[3]);
    assert SquareRootIs(P0[4], WORD, 3, IV256[4]);
    assert SquareRootIs(P0[5], WORD, 3, IV256[5]);
    assert SquareRootIs(P0[6], WORD, 4, IV256[6]);
    assert SquareRootIs(P0[7], WORD, 4, IV256[7]);
  }

  /** That of SHA-224 is the second 32 bits of those of the ninth to sixteenth primes. */
  lemma SquareRoots224(i: nat)
    requires i < 8
    ensures SquareBits(PrimeAt(8 + i), WORD * WORD, InitialHash(true)[i])
  {
    assert SquareRootIs(P1[0], WORD * WORD, 0x4CBBB9D5D, IV224[0]);
    assert SquareRootIs(P1[1], WORD * WORD, 0x5629A292A, IV224[1]);
    assert SquareRootIs(P1[2], WORD * WORD, 0x59159015A, IV224[2]);
    assert SquareRootIs(P1[3], WORD * WORD, 0x6152FECD8, IV224[3]);
    assert SquareRootIs(P1[4], WORD * WORD, 0x667332667, IV224[4]);
    assert SquareRootIs(P1[5], WORD * WORD, 0x68EB44A87, IV224[5]);
    assert SquareRootIs(P1[6], WORD * WORD, 0x6DB0C2E0D, IV224[6]);
    assert SquareRootIs(P1[7], WORD * WORD, 0x747B5481D, IV224[7]);
  }
}
