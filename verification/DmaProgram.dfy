/** The microcode a transfer request denotes: what `_setup_req` and its helpers emit,
    written as byte strings, and the burst arithmetic they rest on. */
module DmaProgram {
  import opened Words
  import opened DmaInstr
  import opened Arith

  datatype TransferType = MemToMem | MemToDev | DevToMem

  /** What the code generator reads from the controller and the descriptor:
      hardware revision, transfer type, the no-FLUSHP quirk and the peripheral index. */
  datatype Cfg = Cfg(revision: nat, kind: TransferType, noFlushp: bool, peri: nat) {
    predicate Valid() { peri < 32 }
    function PeriCond(): Cond { if noFlushp then Burst else Single }
    function Flush(): seq<u8> requires Valid() { if noFlushp then [] else Encode(FLUSHP(peri)) }
  }

  /** One transfer: channel-control word, addresses and byte count. */
  datatype Xfer = Xfer(ccr: u32, src: u32, dst: u32, bytes: u32)

  function BrstLen(ccr: u32): nat { ccr / 16 % 16 + 1 }

  function BrstSize(ccr: u32): (s: nat)
    ensures s >= 1
  {
    Pow2(ccr / 2 % 8)
  }

  function BurstBytes(ccr: u32): (b: nat)
    ensures b >= 1
  {
    assert BrstSize(ccr) * BrstLen(ccr) >= 1 * BrstLen(ccr);
    BrstSize(ccr) * BrstLen(ccr)
  }

  function ByteToBurst(bytes: nat, ccr: u32): nat
  {
    Quotient(Quotient(bytes, BrstSize(ccr)), BrstLen(ccr))
  }

  /** The two divisions of BYTE_TO_BURST are one division by the burst size. */
  lemma ByteToBurstExact(bytes: nat, ccr: u32)
    requires bytes % BurstBytes(ccr) == 0
    ensures bytes == ByteToBurst(bytes, ccr) * BurstBytes(ccr)
  {
    var s, l := BrstSize(ccr), BrstLen(ccr);
    DivBounds(bytes, s * l);
    DivDiv(bytes, s, l, bytes / (s * l));
  }

  /** One load/store pair with the synchronisation its transfer type needs. */
  function OneBurst(cfg: Cfg): (code: seq<u8>)
    requires cfg.Valid()
    ensures |code| == 2 || |code| == 4 || |code| == 5 || |code| == 7
  {
    match cfg.kind
    case MemToMem =>
      if cfg.revision >= 1 then Encode(LD(Always)) + Encode(ST(Always))
      else Encode(LD(Always)) + Encode(RMB) + Encode(ST(Always)) + Encode(WMB)
    case MemToDev =>
      Encode(WFP(cfg.PeriCond(), cfg.peri)) + Encode(LD(Always)) + Encode(STP(cfg.PeriCond(), cfg.peri)) + cfg.Flush()
    case DevToMem =>
      Encode(WFP(cfg.PeriCond(), cfg.peri)) + Encode(LDP(cfg.PeriCond(), cfg.peri)) + Encode(ST(Always)) + cfg.Flush()
  }

  function BurstsCode(cfg: Cfg, cyc: nat): (code: seq<u8>)
    requires cfg.Valid()
    ensures |code| == cyc * |OneBurst(cfg)|
  {
    if cyc == 0 then [] else BurstsCode(cfg, cyc - 1) + OneBurst(cfg)
  }

  /** Iteration counts of the two hardware loops and bursts unrolled in the body;
      `outer == 0` means there is no outer loop. */
  datatype Nest = Nest(outer: nat, inner: nat, cyc: nat) {
    function Iterations(): nat { inner * (if outer == 0 then 1 else outer) }
    function Bursts(): nat { Iterations() * cyc }
  }

  /** Most bursts whose loop nest still has 8-bit backward jumps. */
  function CycMax(cfg: Cfg, nested: bool): (m: nat)
    requires cfg.Valid()
    ensures 35 <= m && m * |OneBurst(cfg)| <= (if nested then 247 else 251)
  {
    var room := if nested then 247 else 251;
    RoomFor(room, |OneBurst(cfg)|);
    room / |OneBurst(cfg)|
  }

  lemma RoomFor(room: nat, s: nat)
    requires 247 <= room && (s == 2 || s == 4 || s == 5 || s == 7)
    ensures 35 <= room / s && room / s * s <= room
  {
    if s == 2 {} else if s == 4 {} else if s == 5 {} else {}
  }

  function ChooseNest(cfg: Cfg, bursts: nat): (n: Nest)
    requires cfg.Valid() && bursts > 1
    ensures n.outer <= 256 && 1 <= n.inner <= 256
    ensures 1 <= n.cyc <= CycMax(cfg, n.outer > 0)
    ensures 1 <= n.Bursts() <= bursts
  {
    if bursts >= 65536 then
      var want := bursts / 256 / 256;
      assert want * 65536 <= bursts;
      var m := CycMax(cfg, true);
      Nest(256, 256, if m < want then m else want)
    else if bursts > 256 then Nest(bursts / 256, 256, 1)
    else Nest(0, bursts, 1)
  }

  /** Bursts one call of `_loop` disposes of. */
  function Consumed(cfg: Cfg, bursts: nat): (c: nat)
    requires cfg.Valid() && bursts > 0
    ensures 1 <= c <= bursts
  {
    if bursts == 1 then 1 else ChooseNest(cfg, bursts).Bursts()
  }

  /** A loop on one counter around `body`: load the count minus one, run, jump back. */
  function Looped(second: bool, count: nat, body: seq<u8>): (code: seq<u8>)
    requires 1 <= count <= 256 && |body| < 256
    ensures |code| == |body| + 4
  {
    Encode(LP(second, count - 1)) + body + Encode(LPEND(second, Always, |body|))
  }

  function NestCode(cfg: Cfg, n: Nest): (code: seq<u8>)
    requires cfg.Valid() && n.outer <= 256 && 1 <= n.inner <= 256
    requires n.cyc <= CycMax(cfg, n.outer > 0)
  {
    BurstsFit(cfg, n.cyc, n.outer > 0);
    var inner := Looped(true, n.inner, BurstsCode(cfg, n.cyc));
    if n.outer == 0 then inner else Looped(false, n.outer, inner)
  }

  lemma BurstsFit(cfg: Cfg, cyc: nat, nested: bool)
    requires cfg.Valid() && cyc <= CycMax(cfg, nested)
    ensures |BurstsCode(cfg, cyc)| <= (if nested then 247 else 251)
  {
    var s := |OneBurst(cfg)|;
    assert cyc * s <= CycMax(cfg, nested) * s;
  }

  function LoopCode(cfg: Cfg, bursts: nat): (code: seq<u8>)
    requires cfg.Valid() && bursts > 0
  {
    if bursts == 1 then BurstsCode(cfg, 1) else NestCode(cfg, ChooseNest(cfg, bursts))
  }

  function LoopsCode(cfg: Cfg, bursts: nat): (code: seq<u8>)
    requires cfg.Valid()
  {
    if bursts == 0 then [] else LoopCode(cfg, bursts) + LoopsCode(cfg, bursts - Consumed(cfg, bursts))
  }

  /** Number of loop nests `_setup_loops` emits. */
  function Segments(cfg: Cfg, bursts: nat): nat
    requires cfg.Valid()
  {
    if bursts == 0 then 0 else 1 + Segments(cfg, bursts - Consumed(cfg, bursts))
  }

  function XferCode(cfg: Cfg, x: Xfer): seq<u8>
    requires cfg.Valid()
  {
    Encode(MOV(SAR, x.src)) + Encode(MOV(DAR, x.dst)) + LoopsCode(cfg, ByteToBurst(x.bytes, x.ccr))
  }

  function Trailer(ev: u8): (code: seq<u8>)
  {
    Encode(SEV(ev % 32)) + Encode(END)
  }

  function ReqCode(cfg: Cfg, x: Xfer, ev: u8): seq<u8>
    requires cfg.Valid()
  {
    Encode(MOV(CCR, x.ccr)) + XferCode(cfg, x) + Trailer(ev)
  }

  /** Below 65536 * (cycmax + 1) bursts three nests are enough: one full double loop, one
      partial double loop, one single loop. */
  lemma AtMostThreeSegments(cfg: Cfg, bursts: nat)
    requires cfg.Valid() && bursts < 65536 * (CycMax(cfg, true) + 1)
    ensures Segments(cfg, bursts) <= 3
  {
    if bursts < 65536 {
      FewSegments(cfg, bursts);
    } else {
      var want := bursts / 256 / 256;
      assert want <= CycMax(cfg, true);
      assert Consumed(cfg, bursts) == 65536 * want;
      FewSegments(cfg, bursts - 65536 * want);
    }
  }

  lemma FewSegments(cfg: Cfg, bursts: nat)
    requires cfg.Valid() && bursts < 65536
    ensures Segments(cfg, bursts) <= 2
    ensures bursts <= 256 ==> Segments(cfg, bursts) <= 1
  {
    if bursts > 256 {
      assert bursts - Consumed(cfg, bursts) == bursts % 256;
      FewSegments(cfg, bursts % 256);
    } else if bursts > 1 {
      assert Consumed(cfg, bursts) == bursts;
    }
  }

  /** The code for fewer than 65536 bursts is at most 20 bytes of loops for memory copies. */
  lemma ShortCode(cfg: Cfg, bursts: nat)
    requires cfg.Valid() && cfg.kind.MemToMem? && bursts < 65536
    ensures |LoopsCode(cfg, bursts)| <= 20
    ensures bursts <= 256 ==> |LoopsCode(cfg, bursts)| <= 8
  {
    if bursts > 256 {
      assert bursts - Consumed(cfg, bursts) == bursts % 256;
      ShortCode(cfg, bursts % 256);
      assert |BurstsCode(cfg, 1)| <= 4;
    } else if bursts > 1 {
      assert Consumed(cfg, bursts) == bursts;
      assert |BurstsCode(cfg, 1)| <= 4;
      assert LoopsCode(cfg, 0) == [];
    } else if bursts == 1 {
      assert LoopsCode(cfg, 0) == [];
    }
  }
}
