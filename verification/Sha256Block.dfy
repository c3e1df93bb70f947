/** `mbedtls_internal_sha256_process`: the rewritten logical functions, the schedule computed in
    place and the rounds unrolled eight at a time with rotated register roles. */
module Sha256Block {
  import opened Sha256Spec

  function S0(x: bv32): bv32 { ((x >> 7) | (x << 25)) ^ ((x >> 18) | (x << 14)) ^ (x >> 3) }
  function S1(x: bv32): bv32 { ((x >> 17) | (x << 15)) ^ ((x >> 19) | (x << 13)) ^ (x >> 10) }
  function S2(x: bv32): bv32 { ((x >> 2) | (x << 30)) ^ ((x >> 13) | (x << 19)) ^ ((x >> 22) | (x << 10)) }
  function S3(x: bv32): bv32 { ((x >> 6) | (x << 26)) ^ ((x >> 11) | (x << 21)) ^ ((x >> 25) | (x << 7)) }
  function F0(x: bv32, y: bv32, z: bv32): bv32 { (x & y) | (z & (x | y)) }
  function F1(x: bv32, y: bv32, z: bv32): bv32 { z ^ (x & (y ^ z)) }

  /** The shift forms are the rotations of the standard. */
  lemma SigmaForms(x: bv32)
    ensures S0(x) == SmallSigma0(x) && S1(x) == SmallSigma1(x) && S2(x) == BigSigma0(x) && S3(x) == BigSigma1(x)
  {
  }

  /** The rewritten majority and choice. */
  lemma MajForm(x: bv32, y: bv32, z: bv32)
    ensures F0(x, y, z) == Maj(x, y, z)
  {
    assert ((x & y) | (z & (x | y))) == (x & y) ^ (x & z) ^ (y & z);
  }

  lemma ChForm(x: bv32, y: bv32, z: bv32)
    ensures F1(x, y, z) == Ch(x, y, z)
  {
    assert (z ^ (x & (y ^ z))) == (x & y) ^ (!x & z);
  }

  /** The register that plays role `k` (0 for `a` to 7 for `h`) after `r` rounds. */
  function Reg(r: nat, k: nat): (i: nat)
    requires r < 8 && k < 8
    ensures i < 8
  {
    if k >= r then k - r else k + 8 - r
  }

  function Next(r: nat): nat { if r == 7 then 0 else r + 1 }

  function View<T>(A: seq<T>, r: nat): Roles<T>
    requires |A| == 8 && r < 8
  {
    Vars(A[Reg(r, 0)], A[Reg(r, 1)], A[Reg(r, 2)], A[Reg(r, 3)], A[Reg(r, 4)], A[Reg(r, 5)], A[Reg(r, 6)], A[Reg(r, 7)])
  }

  /** Writing only the registers in roles `d` and `h` and then shifting every role by one is a
      round. */
  lemma RoundInPlace<T>(A: seq<T>, r: nat, x: T, y: T)
    requires |A| == 8 && r < 8
    ensures var v := View(A, r);
            View(A[Reg(r, 3) := x][Reg(r, 7) := y], Next(r)) == Vars(y, v.a, v.b, v.c, x, v.e, v.f, v.g)
  {
    if r == 0 {
    } else if r == 1 {
    } else if r == 2 {
    } else if r == 3 {
    } else if r == 4 {
    } else if r == 5 {
    } else if r == 6 {
    } else {
    }
  }

  /** The two temporaries of a round in the code's forms. */
  lemma Temporaries(v: Vars, k: bv32, x: bv32)
    ensures Add(Add(Add(Add(v.h, S3(v.e)), F1(v.e, v.f, v.g)), k), x) == T1(v, k, x)
    ensures Add(S2(v.a), F0(v.a, v.b, v.c)) == T2(v)
  {
    hide Add, S0, S1, S2, S3, F0, F1, BigSigma0, BigSigma1, SmallSigma0, SmallSigma1, Ch, Maj;
    SigmaForms(v.e);
    ChForm(v.e, v.f, v.g);
    SigmaForms(v.a);
    MajForm(v.a, v.b, v.c);
  }

  /** One round on registers in the given roles. */
  method P(A: array<bv32>, a: nat, b: nat, c: nat, d: nat, e: nat, f: nat, g: nat, h: nat, x: bv32, k: bv32,
        ghost r: nat)
    requires A.Length == 8 && r < 8
    requires a == Reg(r, 0) && b == Reg(r, 1) && c == Reg(r, 2) && d == Reg(r, 3)
    requires e == Reg(r, 4) && f == Reg(r, 5) && g == Reg(r, 6) && h == Reg(r, 7)
    modifies A
    ensures View(A[..], Next(r)) == Round(View(old(A[..]), r), k, x)
  {
    hide S2, S3, F0, F1, T1, T2, Add;
    ghost var v := View(A[..], r);
    Temporaries(v, k, x);
    var temp1 := Add(Add(Add(Add(A[h], S3(A[e])), F1(A[e], A[f], A[g])), k), x);
    var temp2 := Add(S2(A[a]), F0(A[a], A[b], A[c]));
    RoundInPlace(A[..], r, Add(v.d, temp1), Add(temp1, temp2));
    A[d] := Add(A[d], temp1);
    A[h] := Add(temp1, temp2);
    assert A[..] == old(A[..])[d := Add(v.d, temp1)][h := Add(temp1, temp2)];
  }

  /** The next schedule word, stored and returned. */
  method R(W: array<bv32>, t: nat, ghost m: Block) returns (w: bv32)
    requires W.Length == 64 && 16 <= t < 64 && forall j | 0 <= j < t :: W[j] == Schedule(m, j)
    modifies W
    ensures w == Schedule(m, t) && forall j | 0 <= j <= t :: W[j] == Schedule(m, j)
  {
    hide S0, S1, SmallSigma0, SmallSigma1, Add, MessageWord;
    SigmaForms(W[t - 2]);
    SigmaForms(W[t - 15]);
    w := Add(Add(Add(S1(W[t - 2]), W[t - 7]), S0(W[t - 15])), W[t - 16]);
    assert w == Schedule(m, t);
    W[t] := w;
  }

  lemma RoundStep(v: Vars, m: Block, t: nat)
    requires t < 64
    ensures Rounds(v, m, t + 1) == Round(Rounds(v, m, t), K(t), Schedule(m, t))
  {
    hide Round, Schedule;
  }

  /** The unrolled body of the first loop: eight rounds, after which the roles are back where
      they were. */
  method FirstRounds(A: array<bv32>, W: array<bv32>, i: nat, ghost v: Vars, ghost m: Block)
    requires A.Length == 8 && W.Length == 64 && A != W && i + 8 <= 16
             && forall j | 0 <= j < 16 :: W[j] == Schedule(m, j)
    requires View(A[..], 0) == Rounds(v, m, i)
    modifies A
    ensures View(A[..], 0) == Rounds(v, m, i + 8)
  {
    hide Schedule, Round, Rounds, View, K;
    P(A, 0, 1, 2, 3, 4, 5, 6, 7, W[i], K(i), 0);
    RoundStep(v, m, i);
    P(A, 7, 0, 1, 2, 3, 4, 5, 6, W[i + 1], K(i + 1), 1);
    RoundStep(v, m, i + 1);
    P(A, 6, 7, 0, 1, 2, 3, 4, 5, W[i + 2], K(i + 2), 2);
    RoundStep(v, m, i + 2);
    P(A, 5, 6, 7, 0, 1, 2, 3, 4, W[i + 3], K(i + 3), 3);
    RoundStep(v, m, i + 3);
    P(A, 4, 5, 6, 7, 0, 1, 2, 3, W[i + 4], K(i + 4), 4);
    RoundStep(v, m, i + 4);
    P(A, 3, 4, 5, 6, 7, 0, 1, 2, W[i + 5], K(i + 5), 5);
    RoundStep(v, m, i + 5);
    P(A, 2, 3, 4, 5, 6, 7, 0, 1, W[i + 6], K(i + 6), 6);
    RoundStep(v, m, i + 6);
    P(A, 1, 2, 3, 4, 5, 6, 7, 0, W[i + 7], K(i + 7), 7);
    RoundStep(v, m, i + 7);
  }

  /** The unrolled body of the second loop, which also extends the schedule. */
  method LaterRounds(A: array<bv32>, W: array<bv32>, i: nat, ghost v: Vars, ghost m: Block)
    requires A.Length == 8 && W.Length == 64 && A != W && 16 <= i && i + 8 <= 64
             && forall j | 0 <= j < i :: W[j] == Schedule(m, j)
    requires View(A[..], 0) == Rounds(v, m, i)
    modifies A, W
    ensures View(A[..], 0) == Rounds(v, m, i + 8) && forall j | 0 <= j < i + 8 :: W[j] == Schedule(m, j)
  {
    hide Schedule, Round, Rounds, View, K;
    var w;
    w := R(W, i, m);
    P(A, 0, 1, 2, 3, 4, 5, 6, 7, w, K(i), 0);
    RoundStep(v, m, i);
    w := R(W, i + 1, m);
    P(A, 7, 0, 1, 2, 3, 4, 5, 6, w, K(i + 1), 1);
    RoundStep(v, m, i + 1);
    w := R(W, i + 2, m);
    P(A, 6, 7, 0, 1, 2, 3, 4, 5, w, K(i + 2), 2);
    RoundStep(v, m, i + 2);
    w := R(W, i + 3, m);
    P(A, 5, 6, 7, 0, 1, 2, 3, 4, w, K(i + 3), 3);
    RoundStep(v, m, i + 3);
    w := R(W, i + 4, m);
    P(A, 4, 5, 6, 7, 0, 1, 2, 3, w, K(i + 4), 4);
    RoundStep(v, m, i + 4);
    w := R(W, i + 5, m);
    P(A, 3, 4, 5, 6, 7, 0, 1, 2, w, K(i + 5), 5);
    RoundStep(v, m, i + 5);
    w := R(W, i + 6, m);
    P(A, 2, 3, 4, 5, 6, 7, 0, 1, w, K(i + 6), 6);
    RoundStep(v, m, i + 6);
    w := R(W, i + 7, m);
    P(A, 1, 2, 3, 4, 5, 6, 7, 0, w, K(i + 7), 7);
    RoundStep(v, m, i + 7);
  }

  method Load(W: array<bv32>, data: Block)
    requires W.Length == 64
    modifies W
    ensures forall j | 0 <= j < 16 :: W[j] == Schedule(data, j)
  {
    hide BeWord, Schedule;
    var i := 0;
    while i < 16
      invariant 0 <= i <= 16
      invariant forall j | 0 <= j < i :: W[j] == Schedule(data, j)
    {
      W[i] := BeWord(data[4 * i], data[4 * i + 1], data[4 * i + 2], data[4 * i + 3]);
      FirstWords(data, i);
      i := i + 1;
    }
  }

  method Copy(state: array<bv32>) returns (A: array<bv32>)
    requires state.Length == 8
    ensures fresh(A) && A[..] == state[..]
  {
    A := new bv32[8];
    var i := 0;
    while i < 8
      invariant 0 <= i <= 8
      invariant A[..i] == state[..i]
    {
      A[i] := state[i];
      i := i + 1;
    }
  }

  method AddInto(state: array<bv32>, A: array<bv32>)
    requires state.Length == 8 && A.Length == 8 && state != A
    modifies state
    ensures forall j | 0 <= j < 8 :: state[..][j] == Add(old(state[..])[j], A[..][j])
  {
    hide Add;
    var i := 0;
    while i < 8
      invariant 0 <= i <= 8
      invariant forall j | 0 <= j < i :: state[j] == Add(old(state[j]), A[j])
      invariant forall j | i <= j < 8 :: state[j] == old(state[j])
    {
      state[i] := Add(state[i], A[i]);
      i := i + 1;
    }
  }

  /** The block function: the new intermediate hash value. */
  method Process(state: array<bv32>, data: Block)
    requires state.Length == 8
    modifies state
    ensures state[..] == Compress(old(state[..]), data)
  {
    hide Schedule, Round, Rounds, Add;
    var W := new bv32[64];
    var A := Copy(state);
    Load(W, data);
    ghost var v := VarsOf(state[..]);
    NoRounds(v, data);
    var i := 0;
    while i < 16
      invariant i == 0 || i == 8 || i == 16
      invariant forall j | 0 <= j < 16 :: W[j] == Schedule(data, j)
      invariant View(A[..], 0) == Rounds(v, data, i) && state[..] == old(state[..])
    {
      FirstRounds(A, W, i, v, data);
      i := i + 8;
    }
    while i < 64
      invariant 16 <= i <= 64 && i % 8 == 0
      invariant forall j | 0 <= j < i :: W[j] == Schedule(data, j)
      invariant View(A[..], 0) == Rounds(v, data, i) && state[..] == old(state[..])
    {
      LaterRounds(A, W, i, v, data);
      i := i + 8;
    }
    AddInto(state, A);
    NewHash(old(state[..]), data, A[..], state[..]);
  }

  lemma NewHash(h: Hash, m: Block, A: seq<bv32>, out: seq<bv32>)
    requires |A| == 8 && |out| == 8 && View(A, 0) == Rounds(VarsOf(h), m, 64)
    requires forall j | 0 <= j < 8 :: out[j] == Add(h[j], A[j])
    ensures out == Compress(h, m)
  {
    hide Rounds, Add;
  }

  lemma NoRounds(v: Vars, m: Block)
    ensures Rounds(v, m, 0) == v
  {
  }

  lemma FirstWords(m: Block, t: nat)
    requires t < 16
    ensures Schedule(m, t) == BeWord(m[4 * t], m[4 * t + 1], m[4 * t + 2], m[4 * t + 3])
  {
  }
}
