/** The code generator of the DMA driver: emitters storing bytes into the microcode buffer, and
    above them the loops and the whole program. Every emitter returns its length; on a dry run
    it stores nothing. */
module DmaCompiler {
  import opened Words
  import opened DmaInstr
  import opened DmaProgram

  method StoreU32(buf: array<u8>, at: nat, val: u32)
    requires at + 4 <= buf.Length
    modifies buf
    ensures buf[..] == Splice(old(buf[..]), at, Le32(val))
  {
    var v: int := val;
    var i := 0;
    while i < 4
      invariant 0 <= i <= 4
      invariant v == if i == 0 then val else if i == 1 then val / 0x100 else if i == 2 then val / 0x1_0000
                     else if i == 3 then val / 0x100_0000 else 0
      invariant forall k | 0 <= k < i :: buf[at + k] == Le32(val)[k]
      invariant forall k | 0 <= k < buf.Length && !(at <= k < at + i) :: buf[k] == old(buf[k])
    {
      buf[at + i] := v % 256;
      v := v / 256;
      i := i + 1;
    }
  }

  method EmitEND(dryRun: bool, buf: array<u8>, at: nat) returns (n: nat)
    requires !dryRun ==> at + 1 <= buf.Length
    modifies buf
    ensures n == 1 && Wrote(dryRun, old(buf[..]), buf[..], at, Encode(END))
  {
    if dryRun { return 1; }
    buf[at] := 0x00;
    n := 1;
  }

  method EmitFLUSHP(dryRun: bool, buf: array<u8>, at: nat, peri: u8) returns (n: nat)
    requires !dryRun ==> at + 2 <= buf.Length
    modifies buf
    ensures n == 2 && Wrote(dryRun, old(buf[..]), buf[..], at, Encode(FLUSHP(peri % 32)))
  {
    if dryRun { return 2; }
    buf[at] := 0x35;
    buf[at + 1] := peri % 32 * 8;
    assert buf[..] == Splice(old(buf[..]), at, Encode(FLUSHP(peri % 32)));
    n := 2;
  }

  method EmitLD(dryRun: bool, buf: array<u8>, at: nat, cond: Cond) returns (n: nat)
    requires !dryRun ==> at + 1 <= buf.Length
    modifies buf
    ensures n == 1 && Wrote(dryRun, old(buf[..]), buf[..], at, Encode(LD(cond)))
  {
    if dryRun { return 1; }
    buf[at] := 0x04;
    if cond.Single? {
      buf[at] := buf[at] + 1;
    } else if cond.Burst? {
      buf[at] := buf[at] + 3;
    }
    n := 1;
  }

  method EmitLDP(dryRun: bool, buf: array<u8>, at: nat, cond: Cond, peri: u8) returns (n: nat)
    requires !dryRun ==> at + 2 <= buf.Length
    modifies buf
    ensures n == 2
    ensures Wrote(dryRun, old(buf[..]), buf[..], at, Encode(LDP(if cond.Burst? then Burst else Single, peri % 32)))
  {
    if dryRun { return 2; }
    buf[at] := 0x25;
    if cond.Burst? {
      buf[at] := buf[at] + 2;
    }
    buf[at + 1] := peri % 32 * 8;
    assert buf[..] == Splice(old(buf[..]), at, Encode(LDP(if cond.Burst? then Burst else Single, peri % 32)));
    n := 2;
  }

  /** The hardware adds one to the count; the caller's 256 arrives here truncated to 0. */
  method EmitLP(dryRun: bool, buf: array<u8>, at: nat, second: bool, cnt: u8) returns (n: nat)
    requires !dryRun ==> at + 2 <= buf.Length
    modifies buf
    ensures n == 2 && Wrote(dryRun, old(buf[..]), buf[..], at, Encode(LP(second, (cnt + 255) % 256)))
  {
    if dryRun { return 2; }
    buf[at] := 0x20;
    if second {
      buf[at] := buf[at] + 2;
    }
    buf[at + 1] := if cnt == 0 then 255 else cnt - 1;
    assert buf[..] == Splice(old(buf[..]), at, Encode(LP(second, (cnt + 255) % 256)));
    n := 2;
  }

  method EmitLPEND(dryRun: bool, buf: array<u8>, at: nat, cond: Cond, second: bool, bjump: u8) returns (n: nat)
    requires !dryRun ==> at + 2 <= buf.Length
    modifies buf
    ensures n == 2 && Wrote(dryRun, old(buf[..]), buf[..], at, Encode(LPEND(second, cond, bjump)))
  {
    if dryRun { return 2; }
    buf[at] := 0x28;
    if second {
      buf[at] := buf[at] + 4;
    }
    buf[at] := buf[at] + 16;
    if cond.Single? {
      buf[at] := buf[at] + 1;
    } else if cond.Burst? {
      buf[at] := buf[at] + 3;
    }
    buf[at + 1] := bjump;
    ghost var op: u8, pre: seq<u8> := buf[at], old(buf[..]);
    assert buf[..] == pre[at := op][at + 1 := bjump];
    assert Encode(LPEND(second, cond, bjump)) == [op, bjump];
    assert buf[..] == Splice(pre, at, [op, bjump]);
    n := 2;
  }

  method EmitMOV(dryRun: bool, buf: array<u8>, at: nat, dst: Reg, val: u32) returns (n: nat)
    requires !dryRun ==> at + 6 <= buf.Length
    modifies buf
    ensures n == 6 && Wrote(dryRun, old(buf[..]), buf[..], at, Encode(MOV(dst, val)))
  {
    if dryRun { return 6; }
    buf[at] := 0xbc;
    buf[at + 1] := RegCode(dst);
    ghost var head := buf[..];
    assert Wrote(false, old(buf[..]), head, at, [0xbc, RegCode(dst)]);
    StoreU32(buf, at + 2, val);
    WroteTwice(false, old(buf[..]), head, buf[..], at, [0xbc, RegCode(dst)], Le32(val));
    n := 6;
  }

  method EmitRMB(dryRun: bool, buf: array<u8>, at: nat) returns (n: nat)
    requires !dryRun ==> at + 1 <= buf.Length
    modifies buf
    ensures n == 1 && Wrote(dryRun, old(buf[..]), buf[..], at, Encode(RMB))
  {
    if dryRun { return 1; }
    buf[at] := 0x12;
    n := 1;
  }

  method EmitSEV(dryRun: bool, buf: array<u8>, at: nat, ev: u8) returns (n: nat)
    requires !dryRun ==> at + 2 <= buf.Length
    modifies buf
    ensures n == 2 && Wrote(dryRun, old(buf[..]), buf[..], at, Encode(SEV(ev % 32)))
  {
    if dryRun { return 2; }
    buf[at] := 0x34;
    buf[at + 1] := ev % 32 * 8;
    assert buf[..] == Splice(old(buf[..]), at, Encode(SEV(ev % 32)));
    n := 2;
  }

  method EmitST(dryRun: bool, buf: array<u8>, at: nat, cond: Cond) returns (n: nat)
    requires !dryRun ==> at + 1 <= buf.Length
    modifies buf
    ensures n == 1 && Wrote(dryRun, old(buf[..]), buf[..], at, Encode(ST(cond)))
  {
    if dryRun { return 1; }
    buf[at] := 0x08;
    if cond.Single? {
      buf[at] := buf[at] + 1;
    } else if cond.Burst? {
      buf[at] := buf[at] + 3;
    }
    n := 1;
  }

  method EmitSTP(dryRun: bool, buf: array<u8>, at: nat, cond: Cond, peri: u8) returns (n: nat)
    requires !dryRun ==> at + 2 <= buf.Length
    modifies buf
    ensures n == 2
    ensures Wrote(dryRun, old(buf[..]), buf[..], at, Encode(STP(if cond.Burst? then Burst else Single, peri % 32)))
  {
    if dryRun { return 2; }
    buf[at] := 0x29;
    if cond.Burst? {
      buf[at] := buf[at] + 2;
    }
    buf[at + 1] := peri % 32 * 8;
    assert buf[..] == Splice(old(buf[..]), at, Encode(STP(if cond.Burst? then Burst else Single, peri % 32)));
    n := 2;
  }

  method EmitWFP(dryRun: bool, buf: array<u8>, at: nat, cond: Cond, peri: u8) returns (n: nat)
    requires !dryRun ==> at + 2 <= buf.Length
    modifies buf
    ensures n == 2 && Wrote(dryRun, old(buf[..]), buf[..], at, Encode(WFP(cond, peri % 32)))
  {
    if dryRun { return 2; }
    buf[at] := 0x30;
    if cond.Single? {
    } else if cond.Burst? {
      buf[at] := buf[at] + 2;
    } else {
      buf[at] := buf[at] + 1;
    }
    buf[at + 1] := peri % 32 * 8;
    assert buf[..] == Splice(old(buf[..]), at, Encode(WFP(cond, peri % 32)));
    n := 2;
  }

  method EmitWMB(dryRun: bool, buf: array<u8>, at: nat) returns (n: nat)
    requires !dryRun ==> at + 1 <= buf.Length
    modifies buf
    ensures n == 1 && Wrote(dryRun, old(buf[..]), buf[..], at, Encode(WMB))
  {
    if dryRun { return 1; }
    buf[at] := 0x13;
    n := 1;
  }

  /** One burst of any supported transfer type. */
  method EmitOneBurst(dryRun: bool, buf: array<u8>, at: nat, cfg: Cfg) returns (off: nat)
    requires cfg.Valid() && (!dryRun ==> at + |OneBurst(cfg)| <= buf.Length)
    modifies buf
    ensures off == |OneBurst(cfg)| && Wrote(dryRun, old(buf[..]), buf[..], at, OneBurst(cfg))
  {
    hide Encode, Wrote, OneBurst;
    match cfg.kind {
      case MemToMem => off := EmitMemToMem(dryRun, buf, at, cfg);
      case MemToDev => off := EmitMemToDev(dryRun, buf, at, cfg);
      case DevToMem => off := EmitDevToMem(dryRun, buf, at, cfg);
    }
  }

  method EmitMemToMem(dryRun: bool, buf: array<u8>, at: nat, cfg: Cfg) returns (off: nat)
    requires cfg.Valid() && cfg.kind.MemToMem? && (!dryRun ==> at + |OneBurst(cfg)| <= buf.Length)
    modifies buf
    ensures off == |OneBurst(cfg)| && Wrote(dryRun, old(buf[..]), buf[..], at, OneBurst(cfg))
  {
    hide Wrote;
    var n;
    ghost var b0 := buf[..];
    if cfg.revision >= 1 {
      off := EmitLD(dryRun, buf, at, Always);
      ghost var b1 := buf[..];
      n := EmitST(dryRun, buf, at + off, Always);
      off := off + n;
      WroteTwice(dryRun, b0, b1, buf[..], at, Encode(LD(Always)), Encode(ST(Always)));
    } else {
      off := EmitLD(dryRun, buf, at, Always);
      ghost var b1 := buf[..];
      n := EmitRMB(dryRun, buf, at + off);
      off := off + n;
      ghost var b2 := buf[..];
      WroteTwice(dryRun, b0, b1, b2, at, Encode(LD(Always)), Encode(RMB));
      n := EmitST(dryRun, buf, at + off, Always);
      off := off + n;
      ghost var b3 := buf[..];
      WroteTwice(dryRun, b0, b2, b3, at, Encode(LD(Always)) + Encode(RMB), Encode(ST(Always)));
      n := EmitWMB(dryRun, buf, at + off);
      off := off + n;
      WroteTwice(dryRun, b0, b3, buf[..], at, Encode(LD(Always)) + Encode(RMB) + Encode(ST(Always)), Encode(WMB));
    }
  }

  method EmitFlush(dryRun: bool, buf: array<u8>, at: nat, cfg: Cfg) returns (off: nat)
    requires cfg.Valid() && (!dryRun ==> at + |cfg.Flush()| <= buf.Length)
    modifies buf
    ensures off == |cfg.Flush()| && Wrote(dryRun, old(buf[..]), buf[..], at, cfg.Flush())
  {
    if cfg.noFlushp {
      WroteNothing(dryRun, buf[..], at);
      off := 0;
    } else {
      off := EmitFLUSHP(dryRun, buf, at, cfg.peri);
    }
  }

  method EmitMemToDev(dryRun: bool, buf: array<u8>, at: nat, cfg: Cfg) returns (off: nat)
    requires cfg.Valid() && cfg.kind.MemToDev? && (!dryRun ==> at + |OneBurst(cfg)| <= buf.Length)
    modifies buf
    ensures off == |OneBurst(cfg)| && Wrote(dryRun, old(buf[..]), buf[..], at, OneBurst(cfg))
  {
    hide Wrote;
    var n;
    var cond := cfg.PeriCond();
    ghost var wait, ld, st := Encode(WFP(cond, cfg.peri)), Encode(LD(Always)), Encode(STP(cond, cfg.peri));
    ghost var b0 := buf[..];
    off := EmitWFP(dryRun, buf, at, cond, cfg.peri);
    ghost var b1 := buf[..];
    n := EmitLD(dryRun, buf, at + off, Always);
    off := off + n;
    ghost var b2 := buf[..];
    WroteTwice(dryRun, b0, b1, b2, at, wait, ld);
    n := EmitSTP(dryRun, buf, at + off, cond, cfg.peri);
    off := off + n;
    ghost var b3 := buf[..];
    WroteTwice(dryRun, b0, b2, b3, at, wait + ld, st);
    n := EmitFlush(dryRun, buf, at + off, cfg);
    off := off + n;
    WroteTwice(dryRun, b0, b3, buf[..], at, wait + ld + st, cfg.Flush());
  }

  method EmitDevToMem(dryRun: bool, buf: array<u8>, at: nat, cfg: Cfg) returns (off: nat)
    requires cfg.Valid() && cfg.kind.DevToMem? && (!dryRun ==> at + |OneBurst(cfg)| <= buf.Length)
    modifies buf
    ensures off == |OneBurst(cfg)| && Wrote(dryRun, old(buf[..]), buf[..], at, OneBurst(cfg))
  {
    hide Wrote;
    var n;
    var cond := cfg.PeriCond();
    ghost var wait, ld, st := Encode(WFP(cond, cfg.peri)), Encode(LDP(cond, cfg.peri)), Encode(ST(Always));
    ghost var b0 := buf[..];
    off := EmitWFP(dryRun, buf, at, cond, cfg.peri);
    ghost var b1 := buf[..];
    n := EmitLDP(dryRun, buf, at + off, cond, cfg.peri);
    off := off + n;
    ghost var b2 := buf[..];
    WroteTwice(dryRun, b0, b1, b2, at, wait, ld);
    n := EmitST(dryRun, buf, at + off, Always);
    off := off + n;
    ghost var b3 := buf[..];
    WroteTwice(dryRun, b0, b2, b3, at, wait + ld, st);
    n := EmitFlush(dryRun, buf, at + off, cfg);
    off := off + n;
    WroteTwice(dryRun, b0, b3, buf[..], at, wait + ld + st, cfg.Flush());
  }

  lemma {:induction false} BurstsPrefix(cfg: Cfg, i: nat, cyc: nat)
    requires cfg.Valid() && i < cyc
    ensures |BurstsCode(cfg, i)| + |OneBurst(cfg)| <= |BurstsCode(cfg, cyc)|
    decreases cyc
  {
    hide OneBurst;
    if i < cyc - 1 {
      BurstsPrefix(cfg, i, cyc - 1);
    }
  }

  /** `cyc` bursts back to back. */
  method Bursts(dryRun: bool, buf: array<u8>, at: nat, cfg: Cfg, cyc: nat) returns (off: nat)
    requires cfg.Valid() && (!dryRun ==> at + |BurstsCode(cfg, cyc)| <= buf.Length)
    modifies buf
    ensures off == |BurstsCode(cfg, cyc)|
    ensures Wrote(dryRun, old(buf[..]), buf[..], at, BurstsCode(cfg, cyc))
  {
    hide OneBurst, Wrote;
    off := 0;
    var i := 0;
    WroteNothing(dryRun, buf[..], at);
    while i < cyc
      invariant 0 <= i <= cyc
      invariant off == |BurstsCode(cfg, i)|
      invariant Wrote(dryRun, old(buf[..]), buf[..], at, BurstsCode(cfg, i))
    {
      BurstsPrefix(cfg, i, cyc);
      ghost var mid := buf[..];
      var n := EmitOneBurst(dryRun, buf, at + off, cfg);
      WroteTwice(dryRun, old(buf[..]), mid, buf[..], at, BurstsCode(cfg, i), OneBurst(cfg));
      off := off + n;
      i := i + 1;
    }
  }

  /** The inner hardware loop around `cyc` bursts. */
  method InnerLoop(dryRun: bool, buf: array<u8>, at: nat, cfg: Cfg, lcnt1: nat, cyc: nat) returns (off: nat)
    requires cfg.Valid() && 1 <= lcnt1 <= 256 && |BurstsCode(cfg, cyc)| < 256
    requires !dryRun ==> at + |Looped(true, lcnt1, BurstsCode(cfg, cyc))| <= buf.Length
    modifies buf
    ensures off == |Looped(true, lcnt1, BurstsCode(cfg, cyc))|
    ensures Wrote(dryRun, old(buf[..]), buf[..], at, Looped(true, lcnt1, BurstsCode(cfg, cyc)))
  {
    hide OneBurst, BurstsCode, Wrote;
    ghost var start, body := Encode(LP(true, lcnt1 - 1)), BurstsCode(cfg, cyc);
    off := EmitLP(dryRun, buf, at, true, lcnt1 % 256);
    var ljmp1 := off;
    ghost var b1 := buf[..];
    var n := Bursts(dryRun, buf, at + off, cfg, cyc);
    off := off + n;
    ghost var b2 := buf[..];
    WroteTwice(dryRun, old(buf[..]), b1, b2, at, start, body);
    var bjump := (off - ljmp1) % 256;
    n := EmitLPEND(dryRun, buf, at + off, Always, true, bjump);
    off := off + n;
    WroteTwice(dryRun, old(buf[..]), b2, buf[..], at, start + body, Encode(LPEND(true, Always, bjump)));
  }

  /** The two nested hardware loops. */
  method DoubleLoop(dryRun: bool, buf: array<u8>, at: nat, cfg: Cfg, lcnt0: nat, lcnt1: nat, cyc: nat)
    returns (off: nat)
    requires cfg.Valid() && 1 <= lcnt0 <= 256 && 1 <= lcnt1 <= 256 && |BurstsCode(cfg, cyc)| < 252
    requires !dryRun ==> at + |Looped(false, lcnt0, Looped(true, lcnt1, BurstsCode(cfg, cyc)))| <= buf.Length
    modifies buf
    ensures off == |Looped(false, lcnt0, Looped(true, lcnt1, BurstsCode(cfg, cyc)))|
    ensures Wrote(dryRun, old(buf[..]), buf[..], at, Looped(false, lcnt0, Looped(true, lcnt1, BurstsCode(cfg, cyc))))
  {
    hide OneBurst, BurstsCode, Wrote;
    ghost var start, body := Encode(LP(false, lcnt0 - 1)), Looped(true, lcnt1, BurstsCode(cfg, cyc));
    off := EmitLP(dryRun, buf, at, false, lcnt0 % 256);
    var ljmp0 := off;
    ghost var b1 := buf[..];
    var n := InnerLoop(dryRun, buf, at + off, cfg, lcnt1, cyc);
    off := off + n;
    ghost var b2 := buf[..];
    WroteTwice(dryRun, old(buf[..]), b1, b2, at, start, body);
    var bjump := (off - ljmp0) % 256;
    n := EmitLPEND(dryRun, buf, at + off, Always, false, bjump);
    off := off + n;
    WroteTwice(dryRun, old(buf[..]), b2, buf[..], at, start + body, Encode(LPEND(false, Always, bjump)));
  }

  /** Sizes of the loop instructions and of one burst, measured by dry runs. */
  method Measure(buf: array<u8>, cfg: Cfg) returns (szlp: nat, szbrst: nat, szlpend: nat)
    requires cfg.Valid()
    modifies buf
    ensures buf[..] == old(buf[..])
    ensures szlp == 2 && szlpend == 2 && szbrst == |OneBurst(cfg)|
  {
    hide OneBurst, Splice;
    szlp := EmitLP(true, buf, 0, false, 0);
    szbrst := Bursts(true, buf, 0, cfg, 1);
    szlpend := EmitLPEND(true, buf, 0, Always, false, 0);
  }

  /** One nest of hardware loops for as many of the `bursts` as it can take. */
  method Loop(dryRun: bool, buf: array<u8>, at: nat, cfg: Cfg, bursts: nat) returns (off: nat, consumed: nat)
    requires cfg.Valid() && bursts > 0 && (!dryRun ==> at + |LoopCode(cfg, bursts)| <= buf.Length)
    modifies buf
    ensures off == |LoopCode(cfg, bursts)| && consumed == Consumed(cfg, bursts)
    ensures Wrote(dryRun, old(buf[..]), buf[..], at, LoopCode(cfg, bursts))
  {
    hide OneBurst, BurstsCode, Encode, Wrote, Looped;
    if bursts == 1 {
      off := Bursts(dryRun, buf, at, cfg, 1);
      return off, 1;
    }
    var lcnt0, lcnt1, cyc;
    if bursts >= 256 * 256 {
      lcnt1, lcnt0 := 256, 256;
      cyc := bursts / lcnt1 / lcnt0;
    } else if bursts > 256 {
      lcnt1 := 256;
      lcnt0 := bursts / lcnt1;
      cyc := 1;
    } else {
      lcnt1, lcnt0 := bursts, 0;
      cyc := 1;
    }
    var szlp, szbrst, szlpend := Measure(buf, cfg);
    if lcnt0 > 0 {
      szlp, szlpend := szlp * 2, szlpend * 2;
    }
    var cycmax := (255 - (szlp + szlpend)) / szbrst;
    assert cycmax == CycMax(cfg, lcnt0 > 0);
    cyc := if cycmax < cyc then cycmax else cyc;
    assert Nest(lcnt0, lcnt1, cyc) == ChooseNest(cfg, bursts);
    BurstsFit(cfg, cyc, lcnt0 > 0);
    if lcnt0 > 0 {
      off := DoubleLoop(dryRun, buf, at, cfg, lcnt0, lcnt1, cyc);
      consumed := lcnt1 * cyc * lcnt0;
      assert consumed == (lcnt1 * lcnt0) * cyc;
    } else {
      off := InnerLoop(dryRun, buf, at, cfg, lcnt1, cyc);
      consumed := lcnt1 * cyc;
    }
  }

  /** What is left to emit is the next segment and then the rest, with `done` already emitted. */
  lemma NextSegment(cfg: Cfg, bursts: nat, done: seq<u8>)
    requires cfg.Valid() && bursts > 0
    ensures done + LoopsCode(cfg, bursts)
            == (done + LoopCode(cfg, bursts)) + LoopsCode(cfg, bursts - Consumed(cfg, bursts))
  {
    hide LoopCode, Consumed;
  }

  method SetupLoops(dryRun: bool, buf: array<u8>, at: nat, cfg: Cfg, x: Xfer) returns (off: nat)
    requires cfg.Valid()
    requires !dryRun ==> at + |LoopsCode(cfg, ByteToBurst(x.bytes, x.ccr))| <= buf.Length
    modifies buf
    ensures off == |LoopsCode(cfg, ByteToBurst(x.bytes, x.ccr))|
    ensures Wrote(dryRun, old(buf[..]), buf[..], at, LoopsCode(cfg, ByteToBurst(x.bytes, x.ccr)))
  {
    hide LoopCode, Consumed, Wrote, ByteToBurst;
    var bursts: nat := ByteToBurst(x.bytes, x.ccr);
    ghost var all, done := LoopsCode(cfg, bursts), [];
    off := 0;
    WroteNothing(dryRun, buf[..], at);
    while bursts > 0
      invariant off == |done|
      invariant all == done + LoopsCode(cfg, bursts)
      invariant Wrote(dryRun, old(buf[..]), buf[..], at, done)
      decreases bursts
    {
      ghost var mid, code := buf[..], LoopCode(cfg, bursts);
      NextSegment(cfg, bursts, done);
      var n, c := Loop(dryRun, buf, at + off, cfg, bursts);
      WroteTwice(dryRun, old(buf[..]), mid, buf[..], at, done, code);
      done := done + code;
      off := off + n;
      bursts := bursts - c;
    }
    assert all == done by { assert LoopsCode(cfg, 0) == []; }
  }

  method SetupXfer(dryRun: bool, buf: array<u8>, at: nat, cfg: Cfg, x: Xfer) returns (off: nat)
    requires cfg.Valid() && (!dryRun ==> at + |XferCode(cfg, x)| <= buf.Length)
    modifies buf
    ensures off == |XferCode(cfg, x)|
    ensures Wrote(dryRun, old(buf[..]), buf[..], at, XferCode(cfg, x))
  {
    hide Wrote, ByteToBurst, LoopsCode;
    ghost var sar, dar := Encode(MOV(SAR, x.src)), Encode(MOV(DAR, x.dst));
    off := EmitMOV(dryRun, buf, at, SAR, x.src);
    ghost var b1 := buf[..];
    var n := EmitMOV(dryRun, buf, at + off, DAR, x.dst);
    off := off + n;
    ghost var b2 := buf[..];
    WroteTwice(dryRun, old(buf[..]), b1, b2, at, sar, dar);
    n := SetupLoops(dryRun, buf, at + off, cfg, x);
    off := off + n;
    WroteTwice(dryRun, old(buf[..]), b2, buf[..], at, sar + dar, LoopsCode(cfg, ByteToBurst(x.bytes, x.ccr)));
  }

  /** The whole program, or -1 when the byte count is not a multiple of the burst. The same
      length comes back from a dry run, which stores nothing. */
  method SetupReq(dryRun: bool, buf: array<u8>, at: nat, cfg: Cfg, x: Xfer, ev: u8) returns (ret: int)
    requires cfg.Valid()
    requires !dryRun ==> at + (if x.bytes % BurstBytes(x.ccr) == 0 then |ReqCode(cfg, x, ev)| else 6) <= buf.Length
    modifies buf
    ensures ret == if x.bytes % BurstBytes(x.ccr) == 0 then |ReqCode(cfg, x, ev)| else -1
    ensures ret >= 0 ==> Wrote(dryRun, old(buf[..]), buf[..], at, ReqCode(cfg, x, ev))
    ensures ret < 0 ==> Wrote(dryRun, old(buf[..]), buf[..], at, Encode(MOV(CCR, x.ccr)))
  {
    hide Wrote, XferCode, BurstBytes;
    ghost var ccr, body := Encode(MOV(CCR, x.ccr)), XferCode(cfg, x);
    var off := EmitMOV(dryRun, buf, at, CCR, x.ccr);
    if x.bytes % BurstBytes(x.ccr) != 0 {
      return -1;
    }
    ghost var b1 := buf[..];
    var n := SetupXfer(dryRun, buf, at + off, cfg, x);
    off := off + n;
    ghost var b2 := buf[..];
    WroteTwice(dryRun, old(buf[..]), b1, b2, at, ccr, body);
    n := EmitSEV(dryRun, buf, at + off, ev);
    off := off + n;
    ghost var b3 := buf[..];
    WroteTwice(dryRun, old(buf[..]), b2, b3, at, ccr + body, Encode(SEV(ev % 32)));
    n := EmitEND(dryRun, buf, at + off);
    off := off + n;
    WroteTwice(dryRun, old(buf[..]), b3, buf[..], at, ccr + body + Encode(SEV(ev % 32)), Encode(END));
    assert ccr + body + Encode(SEV(ev % 32)) + Encode(END) == ReqCode(cfg, x, ev);
    ret := off;
  }
}
