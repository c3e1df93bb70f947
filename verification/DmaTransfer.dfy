/** `dma_transfer`: the request a caller's arguments become, the dry-run size check, and what
    the accepted program does. */
module DmaTransfer {
  import opened Words
  import opened Arith
  import opened Bits
  import opened DmaInstr
  import opened DmaProgram
  import opened DmaMachine
  import opened DmaCorrect
  import opened DmaCompiler

  /** Request configuration fields `_prepare_ccr` packs (bit-field widths as declared). */
  datatype ReqCfg = ReqCfg(srcInc: bool, dstInc: bool, privileged: bool, nonsecure: bool, insnaccess: bool,
                           brstLen: nat, brstSize: nat, dcctl: nat, scctl: nat, swap: nat) {
    predicate Valid()
    {
      brstLen < 32 && brstSize < 8 && dcctl < 8 && scctl < 8 && swap < 5
    }
  }

  function Flag(b: bool, weight: nat): nat { if b then weight else 0 }

  /** Bits 13..0, the source half, without its increment bit. */
  function SideBits(r: ReqCfg, cctl: nat): nat
  {
    2 * r.brstSize + 16 * ((r.brstLen + 15) % 16) + Flag(r.privileged, 256) + Flag(r.nonsecure, 512)
    + Flag(r.insnaccess, 1024) + 2048 * cctl
  }

  /** Source half in bits 0..13, destination half in bits 14..27, swap above. */
  function PrepareCcr(r: ReqCfg): (ccr: u32)
    requires r.Valid()
  {
    Flag(r.srcInc, 1) + SideBits(r, r.scctl)
    + 0x4000 * (Flag(r.dstInc, 1) + SideBits(r, r.dcctl)) + 0x1000_0000 * r.swap
  }

  /** One half of a control word as the controller reads it (ARM CoreLink DMA-330 TRM, Table
      3-21): increment, burst size and length, protection and cache attributes. */
  datatype Side = Side(inc: bool, size: nat, len: nat, privileged: bool, nonsecure: bool, insnaccess: bool, cctl: nat)

  function SideOf(h: nat): Side
  {
    Side(h % 2 == 1, h / 2 % 8, h / 0x10 % 16,
         h / 0x100 % 2 == 1, h / 0x200 % 2 == 1, h / 0x400 % 2 == 1, h / 0x800 % 8)
  }

  /** The whole word: source half, destination half, endian swap size. */
  datatype Control = Control(src: Side, dst: Side, swap: nat)

  function ControlOf(ccr: u32): Control
  {
    Control(SideOf(ccr), SideOf(ccr / 0x4000), ccr / 0x1000_0000 % 8)
  }

  /** What the request configuration asks of one side. */
  function Asked(r: ReqCfg, inc: bool, cctl: nat): Side
  {
    Side(inc, r.brstSize, (r.brstLen + 15) % 16, r.privileged, r.nonsecure, r.insnaccess, cctl)
  }

  lemma SideFields(r: ReqCfg, inc: bool, cctl: nat)
    requires r.Valid() && cctl < 8
    ensures var h := Flag(inc, 1) + SideBits(r, cctl); h < 0x4000 && SideOf(h) == Asked(r, inc, cctl)
  {
    var i, size, len := Flag(inc, 1), r.brstSize, (r.brstLen + 15) % 16;
    var p, n, a := Flag(r.privileged, 1), Flag(r.nonsecure, 1), Flag(r.insnaccess, 1);
    assert i + SideBits(r, cctl) == i + 2 * (size + 8 * (len + 16 * (p + 2 * (n + 2 * (a + 2 * cctl)))));
    SideLayout(i, size, len, p, n, a, cctl);
  }

  lemma SideLayout(i: nat, size: nat, len: nat, p: nat, n: nat, a: nat, c: nat)
    requires i < 2 && size < 8 && len < 16 && p < 2 && n < 2 && a < 2 && c < 8
    ensures var h := i + 2 * (size + 8 * (len + 16 * (p + 2 * (n + 2 * (a + 2 * c)))));
            && h < 0x4000 && h % 2 == i && h / 2 % 8 == size && h / 0x10 % 16 == len
            && h / 0x100 % 2 == p && h / 0x200 % 2 == n && h / 0x400 % 2 == a && h / 0x800 % 8 == c
  {
    var x := a + 2 * c;
    var y := n + 2 * x;
    var z := p + 2 * y;
    var h := i + 2 * (size + 8 * (len + 16 * z));
    assert h / 2 == size + 8 * (len + 16 * z);
    assert h / 0x10 == len + 16 * z;
    assert h / 0x100 == z && h / 0x200 == y && h / 0x400 == x && h / 0x800 == c;
  }

  /** The controller reads back every field as configured, on both sides. */
  lemma PreparedFields(r: ReqCfg)
    requires r.Valid()
    ensures ControlOf(PrepareCcr(r)) == Control(Asked(r, r.srcInc, r.scctl), Asked(r, r.dstInc, r.dcctl), r.swap)
  {
    hide SideBits, SideOf;
    SideFields(r, r.srcInc, r.scctl);
    SideFields(r, r.dstInc, r.dcctl);
    HalfWords(Flag(r.srcInc, 1) + SideBits(r, r.scctl), Flag(r.dstInc, 1) + SideBits(r, r.dcctl), r.swap);
  }

  /** A prepared control word copies exactly when both sides increment and nothing swaps, and
      its burst is the configured one. */
  lemma PreparedCopies(r: ReqCfg)
    requires r.Valid()
    ensures CopyCcr(PrepareCcr(r)) <==> r.srcInc && r.dstInc && r.swap == 0
    ensures BurstBytes(PrepareCcr(r)) == Pow2(r.brstSize) * ((r.brstLen + 15) % 16 + 1)
  {
    hide Pow2, SideBits;
    PreparedFields(r);
    var ccr := PrepareCcr(r);
    SidePositions(ccr);
    assert BrstLen(ccr) == DstBrstLen(ccr) == (r.brstLen + 15) % 16 + 1;
    assert BrstSize(ccr) == DstBrstSize(ccr) == Pow2(r.brstSize);
  }

  /** Where the fields of the destination half are in the word. */
  lemma SidePositions(c: u32)
    ensures var d := SideOf(c / 0x4000);
            && d.inc == (c / 0x4000 % 2 == 1) && d.size == c / 0x8000 % 8 && d.len == c / 0x4_0000 % 16
            && d.privileged == (c / 0x40_0000 % 2 == 1) && d.nonsecure == (c / 0x80_0000 % 2 == 1)
            && d.insnaccess == (c / 0x100_0000 % 2 == 1) && d.cctl == c / 0x200_0000 % 8
  {
    assert c / 0x4000 / 2 == c / 0x8000 && c / 0x4000 / 0x10 == c / 0x4_0000 && c / 0x4000 / 0x100 == c / 0x40_0000;
    assert c / 0x4000 / 0x200 == c / 0x80_0000 && c / 0x4000 / 0x400 == c / 0x100_0000;
    assert c / 0x4000 / 0x800 == c / 0x200_0000;
  }

  /** The fields of the low half do not see what is above it. */
  lemma LowHalf(s: nat, rest: nat)
    ensures SideOf(s + 0x4000 * rest) == SideOf(s)
  {
    AddMultiple(s, 2, 0x2000 * rest);
    AddMultiple(s / 2, 8, 0x400 * rest);
    AddMultiple(s, 0x10, 0x400 * rest);
    AddMultiple(s / 0x10, 16, 0x40 * rest);
    AddMultiple(s, 0x100, 0x40 * rest);
    AddMultiple(s / 0x100, 2, 0x20 * rest);
    AddMultiple(s, 0x200, 0x20 * rest);
    AddMultiple(s / 0x200, 2, 0x10 * rest);
    AddMultiple(s, 0x400, 0x10 * rest);
    AddMultiple(s / 0x400, 2, 8 * rest);
    AddMultiple(s, 0x800, 8 * rest);
    AddMultiple(s / 0x800, 8, rest);
  }

  lemma HalfWords(s: nat, d: nat, w: nat)
    requires s < 0x4000 && d < 0x4000 && w < 8
    ensures ControlOf(s + 0x4000 * d + 0x1000_0000 * w) == Control(SideOf(s), SideOf(d), w)
  {
    hide SideOf;
    var rest := d + 0x4000 * w;
    var ccr := s + 0x4000 * rest;
    LowHalf(s, rest);
    LowHalf(d, w);
    assert ccr / 0x4000 == rest && ccr / 0x1000_0000 == w;
  }

  /** The configuration `dma_transfer` always uses: 16 beats of 16 bytes, both incrementing. */
  const TRANSFER_CFG := ReqCfg(true, true, true, false, true, 16, 4, 0, 0, 0)

  /** Both sides step through 16 beats of 16 bytes, privileged and secure. */
  const SECURE_SIDE := Side(true, 4, 15, true, false, true, 0)

  const BURST := 256
  const MCBUFSZ := 128

  lemma TransferCcr()
    ensures ControlOf(PrepareCcr(TRANSFER_CFG)) == Control(SECURE_SIDE, SECURE_SIDE, 0)
    ensures CopyCcr(PrepareCcr(TRANSFER_CFG)) && BurstBytes(PrepareCcr(TRANSFER_CFG)) == BURST
  {
    hide CopyCcr, BurstBytes, PrepareCcr, ControlOf;
    PreparedCopies(TRANSFER_CFG);
    PreparedFields(TRANSFER_CFG);
    assert Pow2(1) == 2 && Pow2(2) == 4 && Pow2(3) == 8;
  }

  function MemCfg(revision: nat): Cfg { Cfg(revision, MemToMem, false, 0) }

  function TransferOf(src: u32, dst: u32, sz: u32): Xfer { Xfer(PrepareCcr(TRANSFER_CFG), src, dst, sz) }

  /** The program of an accepted transfer; the event is the channel number. */
  function TransferCode(revision: nat, chan: nat, src: u32, dst: u32, sz: u32): seq<u8>
    requires chan < 8
  {
    ReqCode(MemCfg(revision), TransferOf(src, dst, sz), chan)
  }

  predicate AllAligned(src: u32, dst: u32, sz: u32)
  {
    Aligned(src, BURST) && Aligned(dst, BURST) && Aligned(sz, BURST)
  }

  datatype Outcome = Started(mcBus: nat) | BadChannel | NotAligned | Busy | NoTx | TooBig

  /** The driver object: one microcode area of `MCBUFSZ` bytes per channel of which a request
      gets half, the channels whose first request slot is taken, and free transfer objects. */
  class Controller {
    const revision: nat
    const numChan: nat
    const mcode: array<u8>
    var busy: seq<bool>
    var freeTx: nat

    ghost predicate Valid()
      reads this
    {
      numChan <= 8 && MCBUFSZ * numChan <= mcode.Length && |busy| == numChan
    }

    constructor (revision: nat, numChan: nat, mcode: array<u8>)
      requires numChan <= 8 && MCBUFSZ * numChan <= mcode.Length
      ensures Valid() && this.mcode == mcode && this.revision == revision && this.numChan == numChan
      ensures busy == seq(numChan, i => false) && freeTx == 8
    {
      this.revision, this.numChan, this.mcode := revision, numChan, mcode;
      busy, freeTx := seq(numChan, i => false), 8;
    }

    ghost function Decision(chan: nat, src: u32, dst: u32, sz: u32): Outcome
      requires Valid()
      reads this
    {
      if chan >= numChan then BadChannel
      else if !AllAligned(src, dst, sz) then NotAligned
      else if busy[chan] then Busy
      else if freeTx == 0 then NoTx
      else if |TransferCode(revision, chan, src, dst, sz)| > MCBUFSZ / 2 then TooBig
      else Started(MCBUFSZ * chan)
    }

    /** Accepts a request exactly when its whole program fits its half of the channel's
        microcode area; then that half holds the program and nothing beyond it was written. */
    method Transfer(chan: nat, src: u32, dst: u32, sz: u32) returns (r: Outcome)
      requires Valid()
      modifies this, mcode
      ensures Valid() && r == old(Decision(chan, src, dst, sz))
      ensures r.Started? ==>
        && CodeAt(mcode[..], r.mcBus, TransferCode(revision, chan, src, dst, sz))
        && (forall p | 0 <= p < mcode.Length && !(r.mcBus <= p < r.mcBus + MCBUFSZ / 2) :: mcode[p] == old(mcode[p]))
        && busy == old(busy)[chan := true] && freeTx == old(freeTx) - 1
      ensures !r.Started? ==> mcode[..] == old(mcode[..]) && busy == old(busy) && freeTx == old(freeTx)
    {
      hide ReqCode, PrepareCcr, BurstBytes;
      if chan >= numChan {
        return BadChannel;
      }
      if !AllAligned(src, dst, sz) {
        return NotAligned;
      }
      if busy[chan] {
        return Busy;
      }
      if freeTx == 0 {
        return NoTx;
      }
      var x := TransferOf(src, dst, sz);
      ghost var code := TransferCode(revision, chan, src, dst, sz);
      TransferCcr();
      AlignedIsMultiple(sz, BURST);
      var ret := SetupReq(true, mcode, MCBUFSZ * chan, MemCfg(revision), x, chan);
      assert mcode[..] == old(mcode[..]);
      if ret > MCBUFSZ / 2 {
        return TooBig;
      }
      busy, freeTx := busy[chan := true], freeTx - 1;
      ret := SetupReq(false, mcode, MCBUFSZ * chan, MemCfg(revision), x, chan);
      r := Started(MCBUFSZ * chan);
      SpliceFacts(old(mcode[..]), MCBUFSZ * chan, code);
      assert forall p | 0 <= p < mcode.Length :: mcode[p] == mcode[..][p];
      assert forall p | 0 <= p < mcode.Length :: old(mcode[p]) == old(mcode[..])[p];
    }
  }

  lemma SpliceFacts(pre: seq<u8>, at: nat, code: seq<u8>)
    requires at + |code| <= |pre|
    ensures CodeAt(Splice(pre, at, code), at, code)
    ensures forall p | 0 <= p < |pre| && !(at <= p < at + |code|) :: Splice(pre, at, code)[p] == pre[p]
  {
  }

  /** End to end: a channel started on an accepted program halts with the destination holding
      the old source bytes, everything else unchanged, and event `chan` signalled once; its
      accesses are privileged and secure. */
  lemma TransferCopies(mcode: seq<u8>, revision: nat, chan: nat, src: u32, dst: u32, sz: u32, s: Channel)
    requires chan < 8 && AllAligned(src, dst, sz)
    requires Idle(s) && Suits(MemCfg(revision), s.data)
             && CodeAt(mcode, s.pc, TransferCode(revision, chan, src, dst, sz))
    requires Fits(|s.data.mem|, src, dst, sz) && |s.data.mem| <= WORD
    requires CopiesExactly(src, dst, sz, BURST)
    ensures exists t ::
      && Reaches(mcode, s, t) && t.halted
      && t.data.mem == CopyAll(s.data.mem, src, dst, sz)
      && t.data.events == s.data.events + [chan]
      && ControlOf(t.data.ccr) == Control(SECURE_SIDE, SECURE_SIDE, 0)
  {
    hide CopyCcr, BurstBytes, PrepareCcr, CodeAt, Aligned, Reaches, ReqCode, CopyAll, ControlOf;
    TransferCcr();
    AlignedIsMultiple(sz, BURST);
    CompilerCorrect(mcode, MemCfg(revision), TransferOf(src, dst, sz), chan, s);
  }

  /** Every aligned request below 16 MiB fits, on both hardware variants. */
  lemma SmallRequestsFit(revision: nat, chan: nat, src: u32, dst: u32, sz: u32)
    requires chan < 8 && AllAligned(src, dst, sz) && sz < 65536 * BURST
    ensures |TransferCode(revision, chan, src, dst, sz)| <= MCBUFSZ / 2
  {
    hide CopyCcr, BurstBytes, PrepareCcr, LoopsCode;
    TransferCcr();
    AlignedIsMultiple(sz, BURST);
    var x := TransferOf(src, dst, sz);
    ByteToBurstExact(sz, x.ccr);
    ShortCode(MemCfg(revision), ByteToBurst(sz, x.ccr));
  }
}
