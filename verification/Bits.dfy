/** The alignment macros of lib/bit.h, as 32-bit arithmetic with its wrap-around. */
module Bits {
  import opened Words
  import opened Arith

  function RoundDown(t: int, p: nat): int
    requires p > 0
  {
    t / p * p
  }

  /** `ALIGN(x, bits)` with `p == 1 << bits`: the operand is truncated to 32 bits, the mask
      added modulo 2^32, the low bits cleared. */
  function Align(x: nat, p: nat): int
    requires p > 0
  {
    RoundDown((x % WORD + (p - 1)) % WORD, p)
  }

  predicate Aligned(x: nat, p: nat)
    requires p > 0
  {
    x == Align(x, p)
  }

  lemma RoundDownBounds(t: int, p: nat)
    requires p > 0
    ensures RoundDown(t, p) <= t < RoundDown(t, p) + p
    ensures RoundDown(t, p) == t - t % p
  {
    DivBounds(t, p);
  }

  /** Rounding up to a multiple leaves exactly the multiples in place. */
  lemma RoundUp(y: int, p: nat)
    requires p > 0
    ensures RoundDown(y + (p - 1), p) == y <==> y % p == 0
  {
    DivBounds(y, p);
    var k := y / p;
    if y % p == 0 {
      DivUnique(y + (p - 1), p, k);
    } else {
      assert (k + 1) * p == k * p + p;
      DivUnique(y + (p - 1), p, k + 1);
    }
  }

  /** Between a multiple of `p` and a larger one there is room for a whole `p`. */
  lemma MultiplesApart(y: int, n: int, p: nat)
    requires p > 0 && y % p == 0 && n % p == 0 && y < n
    ensures y + p <= n
  {
    DivBounds(y, p);
    DivBounds(n, p);
    if y / p >= n / p {
      MulMonotone(n / p, y / p, p);
    } else {
      MulMonotone(y / p + 1, n / p, p);
      assert (y / p + 1) * p == y / p * p + p;
    }
  }

  /** The test accepts exactly the 32-bit multiples of `p`, wrap-around included. */
  lemma AlignedIsMultiple(x: nat, p: nat)
    requires 0 < p && WORD % p == 0
    ensures Aligned(x, p) <==> x < WORD && x % p == 0
  {
    hide RoundDown;
    var y := x % WORD;
    RoundDownBounds((y + (p - 1)) % WORD, p);
    if x < WORD {
      assert y == x && (Aligned(x, p) <==> x == RoundDown((x + (p - 1)) % WORD, p));
      if y + (p - 1) < WORD {
        RoundUp(y, p);
      } else if y % p == 0 {
        MultiplesApart(y, WORD, p);
      } else {
        assert p <= WORD by { PowerBound(p); }
        WrapsBelow(y, p);
      }
    }
  }

  lemma PowerBound(p: nat)
    requires 0 < p && WORD % p == 0
    ensures p <= WORD
  {
  }

  /** Near the top of the address space the sum wraps and rounds down to zero. */
  lemma WrapsBelow(y: nat, p: nat)
    requires 0 < p <= WORD && y < WORD <= y + (p - 1) && y % p != 0
    ensures RoundDown((y + (p - 1)) % WORD, p) != y
  {
    var t := y + (p - 1) - WORD;
    assert t < p && t < y + p && (y + (p - 1)) % WORD == t;
    DivUnique(t, p, 0);
    DivBounds(y, p);
  }
}
