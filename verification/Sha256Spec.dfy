/** SHA-256 and SHA-224 as FIPS 180-2 defines them. */
module Sha256Spec {
  import opened Words

  /** Section 4.2.2: the sixty-four constants, eight to a row. `Sha256Constants` proves that they
      are the first 32 bits of the fractional parts of the cube roots of the first 64 primes. */
  const K0: seq<bv32> := [
    0x428A2F98, 0x71374491, 0xB5C0FBCF, 0xE9B5DBA5,
    0x3956C25B, 0x59F111F1, 0x923F82A4, 0xAB1C5ED5
  ]
  const K1: seq<bv32> := [
    0xD807AA98, 0x12835B01, 0x243185BE, 0x550C7DC3,
    0x72BE5D74, 0x80DEB1FE, 0x9BDC06A7, 0xC19BF174
  ]
  const K2: seq<bv32> := [
    0xE49B69C1, 0xEFBE4786, 0x0FC19DC6, 0x240CA1CC,
    0x2DE92C6F, 0x4A7484AA, 0x5CB0A9DC, 0x76F988DA
  ]
  const K3: seq<bv32> := [
    0x983E5152, 0xA831C66D, 0xB00327C8, 0xBF597FC7,
    0xC6E00BF3, 0xD5A79147, 0x06CA6351, 0x14292967
  ]
  const K4: seq<bv32> := [
    0x27B70A85, 0x2E1B2138, 0x4D2C6DFC, 0x53380D13,
    0x650A7354, 0x766A0ABB, 0x81C2C92E, 0x92722C85
  ]
  const K5: seq<bv32> := [
    0xA2BFE8A1, 0xA81A664B, 0xC24B8B70, 0xC76C51A3,
    0xD192E819, 0xD6990624, 0xF40E3585, 0x106AA070
  ]
  const K6: seq<bv32> := [
    0x19A4C116, 0x1E376C08, 0x2748774C, 0x34B0BCB5,
    0x391C0CB3, 0x4ED8AA4A, 0x5B9CCA4F, 0x682E6FF3
  ]
  const K7: seq<bv32> := [
    0x748F82EE, 0x78A5636F, 0x84C87814, 0x8CC70208,
    0x90BEFFFA, 0xA4506CEB, 0xBEF9A3F7, 0xC67178F2
  ]

  function K(t: nat): bv32
    requires t < 64
  {
    var i := t % 8;
    match t / 8
    case 0 => K0[i] case 1 => K1[i] case 2 => K2[i] case 3 => K3[i]
    case 4 => K4[i] case 5 => K5[i] case 6 => K6[i] case _ => K7[i]
  }

  /** Section 4.1.2: the six logical functions. */
  function Ch(x: bv32, y: bv32, z: bv32): bv32 { (x & y) ^ (!x & z) }
  function Maj(x: bv32, y: bv32, z: bv32): bv32 { (x & y) ^ (x & z) ^ (y & z) }
  function BigSigma0(x: bv32): bv32 { x.RotateRight(2) ^ x.RotateRight(13) ^ x.RotateRight(22) }
  function BigSigma1(x: bv32): bv32 { x.RotateRight(6) ^ x.RotateRight(11) ^ x.RotateRight(25) }
  function SmallSigma0(x: bv32): bv32 { x.RotateRight(7) ^ x.RotateRight(18) ^ (x >> 3) }
  function SmallSigma1(x: bv32): bv32 { x.RotateRight(17) ^ x.RotateRight(19) ^ (x >> 10) }

  function Add(x: bv32, y: bv32): bv32 { x + y }

  type Block = b: seq<u8> | |b| == 64 witness seq(64, i => 0)

  /** Big-endian word `t` of a block. */
  function BeWord(b0: u8, b1: u8, b2: u8, b3: u8): bv32
  {
    (b0 as bv32 << 24) | (b1 as bv32 << 16) | (b2 as bv32 << 8) | b3 as bv32
  }

  function MessageWord(m: Block, t: nat): bv32
    requires t < 16
  {
    BeWord(m[4 * t], m[4 * t + 1], m[4 * t + 2], m[4 * t + 3])
  }

  /** Section 6.2.2, step 1: the message schedule. */
  function Schedule(m: Block, t: nat): bv32
  {
    if t < 16 then MessageWord(m, t)
    else
      Add(Add(Add(SmallSigma1(Schedule(m, t - 2)), Schedule(m, t - 7)),
              SmallSigma0(Schedule(m, t - 15))),
          Schedule(m, t - 16))
  }

  /** The eight working variables. */
  datatype Roles<T> = Vars(a: T, b: T, c: T, d: T, e: T, f: T, g: T, h: T)

  type Vars = Roles<bv32>

  /** Step 3: one round. */
  function T1(v: Vars, k: bv32, w: bv32): bv32
  {
    Add(Add(Add(Add(v.h, BigSigma1(v.e)), Ch(v.e, v.f, v.g)), k), w)
  }

  function T2(v: Vars): bv32 { Add(BigSigma0(v.a), Maj(v.a, v.b, v.c)) }

  function Round(v: Vars, k: bv32, w: bv32): Vars
  {
    Vars(Add(T1(v, k, w), T2(v)), v.a, v.b, v.c, Add(v.d, T1(v, k, w)), v.e, v.f, v.g)
  }

  function Rounds(v: Vars, m: Block, t: nat): Vars
    requires t <= 64
  {
    if t == 0 then v else Round(Rounds(v, m, t - 1), K(t - 1), Schedule(m, t - 1))
  }

  type Hash = h: seq<bv32> | |h| == 8 witness [0, 0, 0, 0, 0, 0, 0, 0]

  function VarsOf(h: Hash): Vars { Vars(h[0], h[1], h[2], h[3], h[4], h[5], h[6], h[7]) }

  /** Steps 2 to 4: the next intermediate hash value. */
  function Compress(h: Hash, m: Block): Hash
  {
    var v := Rounds(VarsOf(h), m, 64);
    [Add(h[0], v.a), Add(h[1], v.b), Add(h[2], v.c), Add(h[3], v.d),
     Add(h[4], v.e), Add(h[5], v.f), Add(h[6], v.g), Add(h[7], v.h)]
  }

  /** All whole blocks of `s`, in order. */
  function HashBlocks(h: Hash, s: seq<u8>): Hash
    decreases |s|
  {
    if |s| < 64 then h else HashBlocks(Compress(h, s[..64]), s[64..])
  }

  /** Whole blocks may be compressed in portions. */
  lemma {:induction false} HashAppend(h: Hash, a: seq<u8>, b: seq<u8>)
    requires |a| % 64 == 0
    ensures HashBlocks(h, a + b) == HashBlocks(HashBlocks(h, a), b)
    decreases |a|
  {
    hide Compress;
    if |a| == 0 {
      assert a + b == b;
    } else {
      assert (a + b)[..64] == a[..64] && (a + b)[64..] == a[64..] + b;
      HashAppend(Compress(h, a[..64]), a[64..], b);
    }
  }

  function Be32(n: u32): (b: seq<u8>)
    ensures |b| == 4
  {
    [n / 0x100_0000, n / 0x1_0000 % 0x100, n / 0x100 % 0x100, n % 0x100]
  }

  const TWO64 := 0x1_0000_0000_0000_0000

  /** The 64-bit big-endian form of a number below 2^64. */
  function Be64(n: nat): (b: seq<u8>)
    requires n < TWO64
    ensures |b| == 8
  {
    Be32(n / WORD) + Be32(n % WORD)
  }

  function FromBe(b: seq<u8>): nat
  {
    if |b| == 0 then 0 else FromBe(b[..|b| - 1]) * 0x100 + b[|b| - 1]
  }

  /** Zero bytes between the 0x80 byte and the length. */
  function ZeroBytes(n: nat): (z: nat)
    ensures z < 64
  {
    (119 - n % 64) % 64
  }

  /** Section 5.1.1: a one bit, zero bits up to 64 short of a block boundary, and the length in
      bits. Lengths of 2^64 bits and more are reduced modulo 2^64. */
  function Pad(msg: seq<u8>): seq<u8>
  {
    msg + [0x80] + seq(ZeroBytes(|msg|), i => 0) + Be64(8 * |msg| % TWO64)
  }

  /** The padded message is whole blocks and ends in the length in bits. */
  lemma PadShape(msg: seq<u8>)
    ensures |Pad(msg)| % 64 == 0
    ensures FromBe(Pad(msg)[|Pad(msg)| - 8..]) == 8 * |msg| % TWO64
  {
    hide ZeroBytes, FromBe, Be64;
    var l := 8 * |msg| % TWO64;
    var front := msg + [0x80] + seq(ZeroBytes(|msg|), i => 0);
    assert Pad(msg) == front + Be64(l);
    assert Pad(msg)[|front|..] == Be64(l);
    Be64Value(l);
    WholeBlocks(|msg|, |Pad(msg)|);
  }

  lemma WholeBlocks(n: nat, len: nat)
    requires len == n + 1 + ZeroBytes(n) + 8
    ensures len % 64 == 0
  {
    hide ZeroBytes;
    ZerosFit(n);
  }

  lemma ZerosFit(n: nat)
    ensures (n + 1 + ZeroBytes(n)) % 64 == 56
  {
  }

  /** No smaller number of zero bytes would do. */
  lemma FewestZeros(n: nat, z: nat)
    requires (n + 1 + z) % 64 == 56
    ensures ZeroBytes(n) <= z
  {
    ZerosFit(n);
  }

  lemma Be64Value(n: nat)
    requires n < TWO64
    ensures FromBe(Be64(n)) == n
  {
    var hi, lo := n / WORD, n % WORD;
    Be32Value(hi, []);
    Be32Value(lo, Be32(hi));
    assert [] + Be32(hi) == Be32(hi);
  }

  lemma Be32Value(n: u32, front: seq<u8>)
    ensures FromBe(front + Be32(n)) == FromBe(front) * WORD + n
  {
    var b := Be32(n);
    var d0: int, d1: int, d2: int, d3: int := b[0], b[1], b[2], b[3];
    FromBeStep(front, b[0]);
    FromBeStep(front + [b[0]], b[1]);
    FromBeStep(front + [b[0]] + [b[1]], b[2]);
    FromBeStep(front + [b[0]] + [b[1]] + [b[2]], b[3]);
    assert front + b == front + [b[0]] + [b[1]] + [b[2]] + [b[3]];
    Digits(n);
  }

  lemma FromBeStep(front: seq<u8>, d: u8)
    ensures FromBe(front + [d]) == FromBe(front) * 0x100 + d
  {
    assert (front + [d])[..|front|] == front;
  }

  lemma Digits(n: u32)
    ensures n == ((n / 0x100_0000 * 0x100 + n / 0x1_0000 % 0x100) * 0x100 + n / 0x100 % 0x100) * 0x100 + n % 0x100
  {
    var q := n / 0x100;
    var r := q / 0x100;
    assert n / 0x1_0000 == r && n / 0x100_0000 == r / 0x100;
  }

  /** Section 5.3.2, and change notice 1 for SHA-224. */
  const IV256: Hash := [
    0x6A09E667, 0xBB67AE85, 0x3C6EF372, 0xA54FF53A,
    0x510E527F, 0x9B05688C, 0x1F83D9AB, 0x5BE0CD19
  ]
  const IV224: Hash := [
    0xC1059ED8, 0x367CD507, 0x3070DD17, 0xF70E5939,
    0xFFC00B31, 0x68581511, 0x64F98FA7, 0xBEFA4FA4
  ]

  function InitialHash(is224: bool): Hash { if is224 then IV224 else IV256 }

  function Concat(words: seq<bv32>): (b: seq<u8>)
    ensures |b| == 4 * |words|
  {
    if |words| == 0 then [] else Be32(words[0] as int) + Concat(words[1..])
  }

  /** The digest: all eight words, or the first seven for SHA-224. */
  function Digest(is224: bool, msg: seq<u8>): seq<u8>
  {
    var h := HashBlocks(InitialHash(is224), Pad(msg));
    Concat(if is224 then h[..7] else h)
  }
}
