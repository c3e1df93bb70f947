/** Machine words and the byte-level helpers every other module shares. */
module Words {

  /** Values of a 32-bit word. */
  const WORD := 0x1_0000_0000

  type u8 = x: int | 0 <= x < 0x100
  type u32 = x: int | 0 <= x < WORD

  datatype Option<+T> = None | Some(value: T)

  /** `pre` with `bytes` stored at offset `off`. */
  function Splice<T>(pre: seq<T>, off: nat, bytes: seq<T>): (post: seq<T>)
    requires off + |bytes| <= |pre|
    ensures |post| == |pre|
  {
    pre[..off] + bytes + pre[off + |bytes|..]
  }

  /** What a writer leaves in a buffer: nothing on a dry run, `bytes` at `off` otherwise. */
  ghost predicate Wrote<T>(dryRun: bool, pre: seq<T>, post: seq<T>, off: nat, bytes: seq<T>)
  {
    && |post| == |pre|
    && (dryRun ==> post == pre)
    && (!dryRun ==> off + |bytes| <= |pre| && post == Splice(pre, off, bytes))
  }

  /** Two consecutive writes are one write of the concatenation. */
  lemma WroteTwice<T>(dryRun: bool, pre: seq<T>, mid: seq<T>, post: seq<T>, off: nat, a: seq<T>, b: seq<T>)
    requires Wrote(dryRun, pre, mid, off, a)
    requires Wrote(dryRun, mid, post, off + |a|, b)
    ensures Wrote(dryRun, pre, post, off, a + b)
  {
    if !dryRun {
      assert post == Splice(pre, off, a + b);
    }
  }

  /** Writing nothing. */
  lemma WroteNothing<T>(dryRun: bool, pre: seq<T>, off: nat)
    requires dryRun || off <= |pre|
    ensures Wrote(dryRun, pre, pre, off, [])
  {
    if !dryRun {
      assert Splice(pre, off, []) == pre;
    }
  }
}
