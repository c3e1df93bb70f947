/** The streaming context of lib/sha256.c. */
module Sha256 {
  import opened Words
  import opened Arith
  import opened Sha256Spec
  import opened Sha256Block

  /** Bytes of a message that are in whole blocks. */
  function Whole(n: nat): (w: nat)
    ensures w <= n && w % 64 == 0 && n - w < 64
  {
    n / 64 * 64
  }

  /** The two-word counter holds a byte count modulo 2^64. */
  predicate Counts(total0: u32, total1: u32, n: nat)
  {
    total0 + total1 * WORD == n % TWO64
  }

  /** The low counter word alone gives the fill of the buffer. */
  lemma LeftOver(total0: u32, total1: u32, n: nat)
    requires Counts(total0, total1, n)
    ensures total0 % 64 == n % 64 == n - Whole(n)
  {
    assert n == TWO64 * (n / TWO64) + n % TWO64;
    AddMultiple(total0, 64, TWO64 / 64 * (n / TWO64) + WORD / 64 * total1);
    DivBounds(n, 64);
  }

  /** Adding in 32 bits with the carry test of the code adds to the 64-bit count. */
  lemma CarryAdds(total0: u32, total1: u32, n: nat, k: u32)
    requires Counts(total0, total1, n)
    ensures var low := (total0 + k) % WORD;
            Counts(low, if low < k then (total1 + 1) % WORD else total1, n + k)
  {
    var q, c := n / TWO64, n % TWO64;
    assert n == TWO64 * q + c;
    var low := (total0 + k) % WORD;
    if total0 + k < WORD {
      assert low == total0 + k && low >= k;
      DivUnique(n + k, TWO64, q);
    } else {
      assert low == total0 + k - WORD && low < k;
      if total1 + 1 < WORD {
        DivUnique(n + k, TWO64, q);
      } else {
        DivUnique(n + k, TWO64, q + 1);
      }
    }
  }

  /** The high and low words written after the padding are the big-endian bit count. */
  lemma LengthWords(total0: u32, total1: u32, n: nat)
    requires Counts(total0, total1, n)
    ensures Be32(total0 / 0x2000_0000 + total1 * 8 % WORD) + Be32(total0 * 8 % WORD) == Be64(8 * n % TWO64)
    ensures total0 / 0x2000_0000 < 8 && total0 / 0x2000_0000 + total1 * 8 % WORD < WORD
  {
    hide Be32;
    BitCount(total0, total1, n);
    var high, low := total0 / 0x2000_0000 + total1 * 8 % WORD, total0 * 8 % WORD;
    DivUnique(8 * n % TWO64, WORD, high);
  }

  lemma BitCount(total0: u32, total1: u32, n: nat)
    requires Counts(total0, total1, n)
    ensures var high, low := total0 / 0x2000_0000 + total1 * 8 % WORD, total0 * 8 % WORD;
            high < WORD && 8 * n % TWO64 == high * WORD + low
  {
    var a, b := total0 / 0x2000_0000, total0 % 0x2000_0000;
    var c, d := total1 / 0x2000_0000, total1 % 0x2000_0000;
    assert total0 == a * 0x2000_0000 + b && total1 == c * 0x2000_0000 + d;
    DivUnique(total0 * 8, WORD, a);
    DivUnique(total1 * 8, WORD, c);
    assert 8 * n == TWO64 * (8 * (n / TWO64) + c) + ((a + 8 * d) * WORD + 8 * b);
    DivUnique(8 * n, TWO64, 8 * (n / TWO64) + c);
  }

  /** One more block. */
  lemma HashOne(h: Hash, s: seq<u8>, b: Block)
    requires |s| % 64 == 0
    ensures HashBlocks(h, s + b) == Compress(HashBlocks(h, s), b)
  {
    hide Compress;
    HashAppend(h, s, b);
    assert b[..64] == b && b[64..] == [];
  }

  lemma SpliceNone(pre: seq<u8>, off: nat)
    requires off <= |pre|
    ensures Splice(pre, off, []) == pre
  {
  }

  lemma SpliceStep(pre: seq<u8>, off: nat, src: seq<u8>, i: nat)
    requires i < |src| && off + |src| <= |pre|
    ensures Splice(pre, off, src[..i + 1]) == Splice(pre, off, src[..i])[off + i := src[i]]
  {
  }

  method MemCpy(dest: array<u8>, off: nat, src: seq<u8>)
    requires off + |src| <= dest.Length
    modifies dest
    ensures dest[..] == Splice(old(dest[..]), off, src)
  {
    hide Splice;
    var i := 0;
    assert src[..0] == [] && Splice(dest[..], off, []) == dest[..] by { SpliceNone(dest[..], off); }
    while i < |src|
      invariant 0 <= i <= |src|
      invariant dest[..] == Splice(old(dest[..]), off, src[..i])
    {
      SpliceStep(old(dest[..]), off, src, i);
      dest[off + i] := src[i];
      i := i + 1;
    }
    assert src[..i] == src;
  }

  function Zeros(n: nat): (z: seq<u8>)
    ensures |z| == n
  {
    seq(n, i => 0)
  }

  method Clear(dest: array<u8>, off: nat, n: nat)
    requires off + n <= dest.Length
    modifies dest
    ensures dest[..] == Splice(old(dest[..]), off, Zeros(n))
  {
    hide Splice, Zeros;
    ghost var before := dest[..];
    var i := 0;
    NothingCleared(before, off);
    while i < n
      invariant 0 <= i <= n
      invariant dest[..] == Splice(before, off, Zeros(i))
    {
      ClearOne(before, off, i);
      dest[off + i] := 0;
      i := i + 1;
    }
  }

  lemma NothingCleared(s: seq<u8>, off: nat)
    requires off <= |s|
    ensures Splice(s, off, Zeros(0)) == s
  {
  }

  lemma ClearOne(s: seq<u8>, off: nat, i: nat)
    requires off + i < |s|
    ensures Splice(s, off, Zeros(i))[off + i := 0] == Splice(s, off, Zeros(i + 1))
  {
  }

  /** `PUT_UINT32_BE`. */
  method Put(n: u32, dest: array<u8>, off: nat)
    requires off + 4 <= dest.Length
    modifies dest
    ensures dest[..] == Splice(old(dest[..]), off, Be32(n))
  {
    dest[off] := n / 0x100_0000;
    dest[off + 1] := n / 0x1_0000 % 0x100;
    dest[off + 2] := n / 0x100 % 0x100;
    dest[off + 3] := n % 0x100;
  }

  lemma {:induction false} ConcatMore(h: seq<bv32>, i: nat)
    requires i < |h|
    ensures Concat(h[..i + 1]) == Concat(h[..i]) + Be32(h[i] as int)
    decreases i
  {
    hide Be32;
    if i == 0 {
      assert h[..1][1..] == [] && h[..1][0] == h[0];
    } else {
      assert h[..i + 1][1..] == h[1..][..i] && h[..i][1..] == h[1..][..i - 1];
      ConcatMore(h[1..], i - 1);
      assert h[..i + 1][0] == h[0] == h[..i][0];
    }
  }

  /** The padding of a message, as it falls into the last block or the last two. */
  lemma PadOneBlock(msg: seq<u8>)
    requires |msg| % 64 <= 55
    ensures var tail := msg[Whole(|msg|)..];
            Pad(msg) == msg[..Whole(|msg|)] + (tail + [0x80] + Zeros(55 - |tail|) + Be64(8 * |msg| % TWO64))
  {
    hide Be64;
    assert |msg| - Whole(|msg|) == |msg| % 64;
    assert ZeroBytes(|msg|) == 55 - |msg| % 64;
    assert msg == msg[..Whole(|msg|)] + msg[Whole(|msg|)..];
  }

  lemma PadTwoBlocks(msg: seq<u8>)
    requires |msg| % 64 > 55
    ensures var tail := msg[Whole(|msg|)..];
            Pad(msg) == msg[..Whole(|msg|)] + (tail + [0x80] + Zeros(63 - |tail|))
                        + (Zeros(56) + Be64(8 * |msg| % TWO64))
  {
    hide Be64;
    var r := |msg| - Whole(|msg|);
    assert r == |msg| % 64;
    assert ZeroBytes(|msg|) == 119 - r;
    assert Zeros(63 - r) + Zeros(56) == Zeros(119 - r);
    assert msg == msg[..Whole(|msg|)] + msg[Whole(|msg|)..];
  }

  class Context {
    var total0: u32
    var total1: u32
    const state: array<bv32>
    const buffer: array<u8>
    var is224: bool
    ghost var msg: seq<u8>

    ghost predicate Shape()
    {
      state.Length == 8 && buffer.Length == 64
    }

    /** The fields stand for the bytes absorbed so far: their count, the hash of the whole blocks
        among them, and the rest in the buffer. */
    ghost predicate Valid()
      reads this, state, buffer
    {
      && Shape() && Counts(total0, total1, |msg|)
      && state[..] == HashBlocks(InitialHash(is224), msg[..Whole(|msg|)])
      && buffer[..|msg| - Whole(|msg|)] == msg[Whole(|msg|)..]
    }

    /** `mbedtls_sha256_init`: everything zero. */
    constructor ()
      ensures Shape() && fresh(state) && fresh(buffer)
    {
      state := new bv32[8](i => 0);
      buffer := new u8[64](i => 0);
      total0, total1, is224, msg := 0, 0, false, [];
    }

    method Starts(is224: bool)
      requires Shape()
      modifies this, state
      ensures Valid() && msg == [] && this.is224 == is224
    {
      hide Compress, HashBlocks, InitialHash, Counts, Whole;
      NothingCounted();
      total0, total1 := 0, 0;
      var h := InitialHash(is224);
      state[0], state[1], state[2], state[3] := h[0], h[1], h[2], h[3];
      state[4], state[5], state[6], state[7] := h[4], h[5], h[6], h[7];
      this.is224 := is224;
      msg := [];
      NothingHashed(h, state[..]);
      assert msg[..0] == [] && buffer[..0] == [];
    }

    /** The state has compressed `all[..done]` and the buffer holds the next `left` bytes. */
    ghost predicate Holding(iv: Hash, all: seq<u8>, done: nat, left: nat)
      reads this, state, buffer
    {
      && Shape() && done % 64 == 0 && done + left <= |all| && left < 64
      && state[..] == HashBlocks(iv, all[..done]) && buffer[..left] == all[done..done + left]
    }

    /** The next block compressed from where it lies. */
    method TakeBlock(data: Block, ghost iv: Hash, ghost all: seq<u8>, ghost done: nat, ghost left: nat)
      requires Holding(iv, all, done, left) && done + 64 <= |all| && data == all[done..done + 64]
      modifies state
      ensures Holding(iv, all, done + 64, 0)
    {
      hide Compress, HashBlocks;
      OneMoreBlock(iv, all, done);
      Process(state, data);
    }

    /** The buffering part: a full buffer first, then blocks straight from the input, then the
        rest into the buffer. */
    method Consume(input: seq<u8>, used: nat, ghost iv: Hash, ghost m: seq<u8>)
      requires |input| > 0 && used == |m| - Whole(|m|) && Holding(iv, m + input, Whole(|m|), used)
      modifies state, buffer
      ensures Holding(iv, m + input, Whole(|m + input|), |m + input| - Whole(|m + input|))
    {
      hide Compress, HashBlocks, Splice, Whole;
      ghost var all, done := m + input, Whole(|m|);
      var left, pos := used, 0;
      var fill := 64 - left;
      if left > 0 && |input| >= fill {
        FillBuffer(input[..fill], left, iv, m, input, done);
        pos, left, done := fill, 0, done + 64;
      }
      while |input| - pos >= 64
        invariant 0 <= pos <= |input| && done == |m| + pos - left
        invariant left > 0 ==> |input| - pos < 64 - left
        invariant Holding(iv, all, done, left)
      {
        TailOf(m, input, pos, pos + 64);
        TakeBlock(input[pos..pos + 64], iv, all, done, left);
        pos, done := pos + 64, done + 64;
      }
      WholeUnique(|all|, done);
      if pos < |input| {
        KeepRest(input[pos..], left, iv, m, input, pos, done);
      }
    }

    /** The first input bytes complete the buffered block, which is compressed. */
    method FillBuffer(src: seq<u8>, left: nat, ghost iv: Hash, ghost m: seq<u8>, ghost input: seq<u8>, ghost done: nat)
      requires 0 < left < 64 && |input| >= 64 - left && src == input[..64 - left] && done == |m| - left
      requires Holding(iv, m + input, done, left)
      modifies state, buffer
      ensures Holding(iv, m + input, done + 64, 0)
    {
      hide Compress, HashBlocks, Splice;
      TailOf(m, input, 0, 64 - left);
      Spliced(buffer[..], left, src, m + input, done);
      MemCpy(buffer, left, src);
      assert buffer[..] == buffer[..64];
      TakeBlock(buffer[..], iv, m + input, done, left);
    }

    /** Input bytes short of a block are kept. */
    method KeepRest(src: seq<u8>, left: nat, ghost iv: Hash, ghost m: seq<u8>, ghost input: seq<u8>, ghost pos: nat,
          ghost done: nat)
      requires pos <= |input| && src == input[pos..] && left + |src| < 64 && done == |m| + pos - left
      requires Holding(iv, m + input, done, left)
      modifies buffer
      ensures Holding(iv, m + input, done, left + |src|)
    {
      hide Compress, HashBlocks, Splice;
      TailOf(m, input, pos, |input|);
      Spliced(buffer[..], left, src, m + input, done);
      MemCpy(buffer, left, src);
      assert buffer[..left + |src|] == buffer[..][..left + |src|];
    }

    /** The byte counter, with its carry. */
    method Count(ilen: u32)
      requires Counts(total0, total1, |msg|)
      modifies this`total0, this`total1
      ensures Counts(total0, total1, |msg| + ilen)
    {
      hide Counts;
      CarryAdds(total0, total1, |msg|, ilen);
      total0 := (total0 + ilen) % WORD;
      if total0 < ilen {
        total1 := (total1 + 1) % WORD;
      }
    }

    method Update(input: seq<u8>)
      requires Valid() && |input| < WORD
      modifies this, state, buffer
      ensures Valid() && msg == old(msg) + input && is224 == old(is224)
    {
      hide Compress, InitialHash, HashBlocks, Counts, Whole, Splice;
      if |input| == 0 {
        assert msg + input == msg;
        return;
      }
      LeftOver(total0, total1, |msg|);
      ghost var all := msg + input;
      Prefix(msg, input, Whole(|msg|));
      var left := total0 % 64;
      Count(|input|);
      Consume(input, left, InitialHash(is224), msg);
      msg := all;
      assert all[Whole(|all|)..|all|] == all[Whole(|all|)..];
    }

    /** The padding written into the buffer and compressed, then the digest written out. */
    method Finish(output: array<u8>)
      requires Valid() && output.Length >= (if is224 then 28 else 32) && output != buffer
      modifies state, buffer, output
      ensures var n := if is224 then 28 else 32;
              && output[..n] == Digest(is224, msg)
              && output[n..] == old(output[n..])
    {
      hide Compress, InitialHash, HashBlocks, Be32, Be64, Counts, Pad, Zeros;
      Absorb();
      WriteOut(output);
    }

    /** Everything of `mbedtls_sha256_finish_ret` up to the last block. */
    method Absorb()
      requires Valid()
      modifies state, buffer
      ensures state[..] == HashBlocks(InitialHash(is224), Pad(msg))
    {
      hide Compress, InitialHash, HashBlocks, Be32, Be64, Counts, Pad, Zeros, Whole;
      LeftOver(total0, total1, |msg|);
      var used := total0 % 64;
      buffer[used] := 0x80;
      used := used + 1;
      assert buffer[..used] == msg[Whole(|msg|)..] + [0x80];
      if used <= 56 {
        OneBlock(used, InitialHash(is224));
      } else {
        TwoBlocks(used, InitialHash(is224));
      }
    }

    /** The buffer holds the tail of the message and the 0x80 byte. */
    ghost predicate Marked(used: nat, iv: Hash)
      reads this, state, buffer
    {
      && Shape() && Counts(total0, total1, |msg|) && used == |msg| - Whole(|msg|) + 1
      && state[..] == HashBlocks(iv, msg[..Whole(|msg|)]) && buffer[..used] == msg[Whole(|msg|)..] + [0x80]
    }

    method OneBlock(used: nat, ghost iv: Hash)
      requires used <= 56 && Marked(used, iv)
      modifies state, buffer
      ensures state[..] == HashBlocks(iv, Pad(msg))
    {
      hide Compress, HashBlocks, Be64, Counts, Pad, Zeros, Splice, Whole;
      LeftOver(total0, total1, |msg|);
      PadOneBlock(msg);
      ZerosBehind(buffer[..], used, 56 - used);
      Clear(buffer, used, 56 - used);
      assert buffer[..56] == buffer[..][..56];
      LastBlock(iv, msg[..Whole(|msg|)]);
    }

    method TwoBlocks(used: nat, ghost iv: Hash)
      requires 56 < used <= 64 && Marked(used, iv)
      modifies state, buffer
      ensures state[..] == HashBlocks(iv, Pad(msg))
    {
      hide Compress, HashBlocks, Be64, Counts, Pad, Zeros, Splice, Whole;
      LeftOver(total0, total1, |msg|);
      PadTwoBlocks(msg);
      ZerosBehind(buffer[..], used, 64 - used);
      Clear(buffer, used, 64 - used);
      ghost var front, first := msg[..Whole(|msg|)], buffer[..];
      assert first == first[..64];
      HashOne(iv, front, first);
      Process(state, buffer[..]);
      ZerosBehind(buffer[..], 0, 56);
      Clear(buffer, 0, 56);
      assert buffer[..56] == buffer[..][..56] == [] + Zeros(56) == Zeros(56);
      LastBlock(iv, front + first);
    }

    /** The length words behind the first 56 bytes of the buffer, and the last block. */
    method LastBlock(ghost iv: Hash, ghost front: seq<u8>)
      requires Shape() && Counts(total0, total1, |msg|) && |front| % 64 == 0 && state[..] == HashBlocks(iv, front)
      modifies state, buffer
      ensures state[..] == HashBlocks(iv, front + (old(buffer[..56]) + Be64(8 * |msg| % TWO64)))
    {
      hide Compress, HashBlocks, Be32, Be64, Counts;
      LengthWords(total0, total1, |msg|);
      ghost var head := buffer[..56];
      var high := total0 / 0x2000_0000 + total1 * 8 % WORD;
      var low := total0 * 8 % WORD;
      Put(high, buffer, 56);
      Put(low, buffer, 60);
      assert buffer[..] == head + (Be32(high) + Be32(low));
      HashOne(iv, front, buffer[..]);
      Process(state, buffer[..]);
    }

    /** Word `i` of the state to its place in the output. */
    method PutWord(i: nat, output: array<u8>)
      requires Shape() && i < 8 && output.Length >= 28 && output.Length >= 4 * i + 4
               && output[..4 * i] == Concat(state[..i])
      modifies output
      ensures output[..4 * i + 4] == Concat(state[..i + 1])
      ensures forall j | 4 * i + 4 <= j < output.Length :: output[j] == old(output[j])
    {
      hide Be32, Concat;
      ghost var h, pre := state[..], output[..];
      ConcatMore(h, i);
      assert h[..i] == state[..i] && pre[..4 * i] == output[..4 * i];
      Put(state[i] as int, output, 4 * i);
      assert state[..] == h && h[..i + 1] == state[..i + 1];
      SpliceFront(pre, 4 * i, Be32(h[i] as int));
      assert output[..4 * i + 4] == output[..][..4 * i + 4];
    }

    method WriteOut(output: array<u8>)
      requires Shape() && output.Length >= (if is224 then 28 else 32)
      modifies output
      ensures var n := if is224 then 28 else 32;
              && output[..n] == Concat(if is224 then state[..7] else state[..])
              && output[n..] == old(output[n..])
    {
      hide Be32, Concat;
      ConcatNone();
      assert output[..0] == [] && state[..0] == [];
      PutWord(0, output);
      PutWord(1, output);
      PutWord(2, output);
      PutWord(3, output);
      PutWord(4, output);
      PutWord(5, output);
      PutWord(6, output);
      if !is224 {
        PutWord(7, output);
        assert state[..8] == state[..];
      }
    }
  }

  lemma ZerosBehind(buf: seq<u8>, used: nat, zeros: nat)
    requires used + zeros <= |buf|
    ensures Splice(buf, used, Zeros(zeros))[..used + zeros] == buf[..used] + Zeros(zeros)
  {
    SpliceFront(buf, used, Zeros(zeros));
  }

  lemma SpliceFront(pre: seq<u8>, off: nat, b: seq<u8>)
    requires off + |b| <= |pre|
    ensures Splice(pre, off, b)[..off + |b|] == pre[..off] + b
  {
  }

  lemma ConcatNone()
    ensures Concat([]) == []
  {
  }

  lemma NothingCounted()
    ensures Counts(0, 0, 0) && Whole(0) == 0
  {
  }

  lemma NothingHashed(h: Hash, out: seq<bv32>)
    requires |out| == 8 && out[0] == h[0] && out[1] == h[1] && out[2] == h[2] && out[3] == h[3]
    requires out[4] == h[4] && out[5] == h[5] && out[6] == h[6] && out[7] == h[7]
    ensures out == h && HashBlocks(h, []) == h
  {
  }

  lemma Prefix(msg: seq<u8>, input: seq<u8>, w: nat)
    requires w <= |msg|
    ensures (msg + input)[..w] == msg[..w] && (msg + input)[w..|msg|] == msg[w..]
  {
  }

  /** A slice of the appended input. */
  lemma TailOf(msg: seq<u8>, input: seq<u8>, from: nat, to: nat)
    requires from <= to <= |input|
    ensures (msg + input)[|msg| + from..|msg| + to] == input[from..to]
  {
  }

  /** New bytes behind the `left` bytes already in the buffer continue them. */
  lemma Spliced(buf: seq<u8>, left: nat, src: seq<u8>, all: seq<u8>, done: nat)
    requires |buf| == 64 && left + |src| <= 64 && done + left + |src| <= |all|
    requires buf[..left] == all[done..done + left] && src == all[done + left..done + left + |src|]
    ensures Splice(buf, left, src)[..left + |src|] == all[done..done + left + |src|]
    ensures Splice(buf, left, src)[..left] == all[done..done + left]
  {
  }

  lemma OneMoreBlock(iv: Hash, all: seq<u8>, done: nat)
    requires done % 64 == 0 && done + 64 <= |all|
    ensures HashBlocks(iv, all[..done + 64]) == Compress(HashBlocks(iv, all[..done]), all[done..done + 64])
  {
    hide Compress;
    assert all[..done + 64] == all[..done] + all[done..done + 64];
    HashOne(iv, all[..done], all[done..done + 64]);
  }

  lemma WholeUnique(n: nat, done: nat)
    requires done % 64 == 0 && done <= n < done + 64
    ensures Whole(n) == done
  {
  }

  /** `mbedtls_sha256_ret`: the digest in one call. */
  method OneShot(input: seq<u8>, output: array<u8>, is224: bool)
    requires |input| < WORD && output.Length >= (if is224 then 28 else 32)
    modifies output
    ensures output[..if is224 then 28 else 32] == Digest(is224, input)
  {
    hide Digest, HashBlocks, Counts, Whole, InitialHash, Compress, Context.Valid;
    var ctx := new Context();
    ctx.Starts(is224);
    ctx.Update(input);
    assert [] + input == input;
    ctx.Finish(output);
  }

  function Join(chunks: seq<seq<u8>>): seq<u8>
  {
    if |chunks| == 0 then [] else Join(chunks[..|chunks| - 1]) + chunks[|chunks| - 1]
  }

  /** Any way of cutting the message into updates gives the digest of the whole. */
  method Streamed(chunks: seq<seq<u8>>, output: array<u8>, is224: bool)
    requires (forall c | c in chunks :: |c| < WORD) && output.Length >= (if is224 then 28 else 32)
    modifies output
    ensures output[..if is224 then 28 else 32] == Digest(is224, Join(chunks))
  {
    hide Digest, HashBlocks, Counts, Whole, InitialHash, Compress, Context.Valid;
    var ctx := new Context();
    ctx.Starts(is224);
    var i := 0;
    while i < |chunks|
      invariant 0 <= i <= |chunks| && ctx.Valid() && ctx.is224 == is224 && ctx.msg == Join(chunks[..i])
      invariant fresh(ctx) && fresh(ctx.state) && fresh(ctx.buffer)
    {
      ctx.Update(chunks[i]);
      assert chunks[..i + 1][..i] == chunks[..i];
      i := i + 1;
    }
    assert chunks[..i] == chunks;
    ctx.Finish(output);
  }
}
