/** A step model of a DMA-330 channel with memory and one peripheral for the instructions the
    driver emits, and what the loop nests of `DmaProgram` do on it. */
module DmaMachine {
  import opened Words
  import opened Arith
  import opened DmaInstr
  import opened DmaProgram

  /** Hardware before revision r1p0 locks up when a load follows a store, or a store a load,
      without the barrier for it in between; later revisions need none. */
  datatype Order = LockFree | Fenced | Loaded | Stored {
    predicate AtRest() { LockFree? || Fenced? }
  }

  /** A peripheral: the bus address of its data register, its number, the kind of transfer it
      was found to request, the bytes it will deliver and the bytes it was given. */
  datatype Port = Port(addr: u32, peri: nat, request: Option<Cond>, input: seq<u8>, output: seq<u8>)

  /** The part of a channel the data instructions touch: addresses, control word, data FIFO,
      system memory, the events signalled so far, which barrier is due, and the peripheral. */
  datatype Data = Data(sar: u32, dar: u32, ccr: u32, fifo: seq<u8>, mem: seq<u8>, events: seq<nat>, order: Order,
                       port: Port)

  /** A channel: program counter, the two loop counters, its data part. */
  datatype Channel = Channel(pc: nat, lc0: u8, lc1: u8, data: Data, halted: bool)

  predicate SrcInc(ccr: u32) { ccr % 2 == 1 }
  predicate DstInc(ccr: u32) { ccr / 0x4000 % 2 == 1 }
  predicate NoSwap(ccr: u32) { ccr / 0x1000_0000 % 8 == 0 }
  function DstBrstLen(ccr: u32): nat { ccr / 0x4_0000 % 16 + 1 }
  function DstBrstSize(ccr: u32): nat { Pow2(ccr / 0x8000 % 8) }

  /** Both sides move bursts of one shape, and bytes are not swapped. */
  predicate PlainCcr(ccr: u32)
  {
    NoSwap(ccr) && DstBrstLen(ccr) == BrstLen(ccr) && DstBrstSize(ccr) == BrstSize(ccr)
  }

  /** A control word for plain copying: moreover both addresses increment. */
  predicate CopyCcr(ccr: u32)
  {
    PlainCcr(ccr) && SrcInc(ccr) && DstInc(ccr)
  }

  function Load(d: Data): Option<Data>
  {
    var n := BurstBytes(d.ccr);
    if PlainCcr(d.ccr) && SrcInc(d.ccr) && d.sar + n <= |d.mem| then
      Some(d.(sar := (d.sar + n) % WORD, fifo := d.fifo + d.mem[d.sar..d.sar + n]))
    else None
  }

  function Store(d: Data): Option<Data>
  {
    var n := BurstBytes(d.ccr);
    if PlainCcr(d.ccr) && DstInc(d.ccr) && d.dar + n <= |d.mem| && n <= |d.fifo| then
      Some(d.(dar := (d.dar + n) % WORD, mem := Splice(d.mem, d.dar, d.fifo[..n]), fifo := d.fifo[n..]))
    else None
  }

  /** A peripheral access moves a whole burst for a burst request, one beat for a single one. */
  function PeriBytes(ccr: u32, cond: Cond): nat { if cond.Burst? then BurstBytes(ccr) else BrstSize(ccr) }

  /** DMAWFP: the peripheral is waited for until it requests that kind of transfer. */
  function Asking(d: Data, cond: Cond): Data { d.(port := d.port.(request := Some(cond))) }

  /** DMALDP from the peripheral at a fixed address, answering its request; nothing is done when
      the request is of the other kind. */
  function LoadPeri(d: Data, cond: Cond, peri: nat): Option<Data>
  {
    var n, p := PeriBytes(d.ccr, cond), d.port;
    if p.request.None? || p.peri != peri then None
    else if p.request.value != cond then Some(d)
    else if PlainCcr(d.ccr) && !SrcInc(d.ccr) && d.sar == p.addr && n <= |p.input| then
      Some(d.(fifo := d.fifo + p.input[..n], port := p.(input := p.input[n..], request := None)))
    else None
  }

  /** DMASTP likewise. */
  function StorePeri(d: Data, cond: Cond, peri: nat): Option<Data>
  {
    var n, p := PeriBytes(d.ccr, cond), d.port;
    if p.request.None? || p.peri != peri then None
    else if p.request.value != cond then Some(d)
    else if PlainCcr(d.ccr) && !DstInc(d.ccr) && d.dar == p.addr && n <= |d.fifo| then
      Some(d.(fifo := d.fifo[n..], port := p.(output := p.output + d.fifo[..n], request := None)))
    else None
  }

  function Next(s: Channel, size: nat, data: Option<Data>): Option<Channel>
  {
    if data.None? then None else Some(s.(pc := s.pc + size, data := data.value))
  }

  /** A load or store, `access`, which leaves `due` open on hardware that needs barriers. */
  function Accessed(d: Data, access: Option<Data>, due: Order): Option<Data>
  {
    if access.None? || !d.order.AtRest() then None
    else Some(access.value.(order := if d.order.LockFree? then LockFree else due))
  }

  function Barrier(d: Data, due: Order): Data
  {
    if d.order == due then d.(order := Fenced) else d
  }

  /** The effect of an instruction. `None` is a fault (an access outside memory, a store the
      FIFO cannot feed, a jump before the program), a lock-up, or a use outside the modelled
      subset. */
  function Execute(s: Channel, instr: Instr): Option<Channel>
  {
    match instr
    case MOV(dst, val) =>
      Next(s, 6, Some(match dst
                      case SAR => s.data.(sar := val)
                      case CCR => s.data.(ccr := val)
                      case DAR => s.data.(dar := val)))
    case LP(second, iterations) =>
      if second then Some(s.(pc := s.pc + 2, lc1 := iterations))
      else Some(s.(pc := s.pc + 2, lc0 := iterations))
    case LPEND(second, cond, bjump) =>
      var count := if second then s.lc1 else s.lc0;
      if !cond.Always? then None
      else if count == 0 then Some(s.(pc := s.pc + 2))
      else if bjump > s.pc then None
      else if second then Some(s.(pc := s.pc - bjump, lc1 := s.lc1 - 1))
      else Some(s.(pc := s.pc - bjump, lc0 := s.lc0 - 1))
    case LD(cond) => if cond.Always? then Next(s, 1, Accessed(s.data, Load(s.data), Loaded)) else None
    case ST(cond) => if cond.Always? then Next(s, 1, Accessed(s.data, Store(s.data), Stored)) else None
    case RMB => Next(s, 1, Some(Barrier(s.data, Loaded)))
    case WMB => Next(s, 1, Some(Barrier(s.data, Stored)))
    case SEV(ev) => Next(s, 2, Some(s.data.(events := s.data.events + [ev])))
    case END => Some(s.(halted := true))
    case WFP(cond, peri) =>
      if cond.Always? || peri != s.data.port.peri then None else Next(s, 2, Some(Asking(s.data, cond)))
    case LDP(cond, peri) => Next(s, 2, LoadPeri(s.data, cond, peri))
    case STP(cond, peri) => Next(s, 2, StorePeri(s.data, cond, peri))
    case FLUSHP(peri) => Next(s, 2, Some(s.data.(port := s.data.port.(request := None))))
  }

  function Step(code: seq<u8>, s: Channel): Option<Channel>
  {
    if s.halted || Decode(code, s.pc).None? then None else Execute(s, Decode(code, s.pc).value)
  }

  /** `n` instructions. */
  function Run(code: seq<u8>, s: Channel, n: nat): Option<Channel>
    decreases n
  {
    if n == 0 then Some(s)
    else match Step(code, s) case None => None case Some(t) => Run(code, t, n - 1)
  }

  ghost predicate Reaches(code: seq<u8>, s: Channel, t: Channel)
  {
    exists n: nat :: Run(code, s, n) == Some(t)
  }

  lemma RunOne(code: seq<u8>, s: Channel)
    ensures Run(code, s, 1) == Step(code, s)
  {
    if Step(code, s).Some? {
      assert Run(code, Step(code, s).value, 0) == Step(code, s);
    }
  }

  /** An instruction found at the program counter is executed. */
  lemma StepReaches(code: seq<u8>, s: Channel, instr: Instr, t: Channel)
    requires Encodable(instr) && CodeAt(code, s.pc, Encode(instr))
    requires !s.halted && Execute(s, instr) == Some(t)
    ensures Reaches(code, s, t)
  {
    hide Execute, Decode, Encode;
    DecodeEncode(code, s.pc, instr);
    assert Step(code, s) == Some(t);
    RunOne(code, s);
  }

  lemma ReachSelf(code: seq<u8>, s: Channel)
    ensures Reaches(code, s, s)
  {
    assert Run(code, s, 0) == Some(s);
  }

  lemma {:induction false} RunSplit(code: seq<u8>, s: Channel, a: nat, t: Channel, b: nat)
    requires Run(code, s, a) == Some(t)
    ensures Run(code, s, a + b) == Run(code, t, b)
    decreases a
  {
    hide Step;
    if a > 0 {
      RunSplit(code, Step(code, s).value, a - 1, t, b);
    }
  }

  lemma ReachTrans(code: seq<u8>, s: Channel, t: Channel, u: Channel)
    requires Reaches(code, s, t) && Reaches(code, t, u)
    ensures Reaches(code, s, u)
  {
    var a: nat :| Run(code, s, a) == Some(t);
    var b: nat :| Run(code, t, b) == Some(u);
    RunSplit(code, s, a, t, b);
    assert Run(code, s, a + b) == Some(u);
  }

  /** A channel has at most one halting state. */
  lemma HaltUnique(code: seq<u8>, s: Channel, t: Channel, u: Channel)
    requires Reaches(code, s, t) && t.halted
    requires Reaches(code, s, u) && u.halted
    ensures t == u
  {
    var a: nat :| Run(code, s, a) == Some(t);
    var b: nat :| Run(code, s, b) == Some(u);
    if a <= b {
      RunSplit(code, s, a, t, b - a);
    } else {
      RunSplit(code, s, b, u, a - b);
    }
  }

  /** One burst: a load, then the store of what was loaded, either side a peripheral that was
      waited for. */
  predicate Moves(cfg: Cfg, d: Data, e: Data)
  {
    var cond := cfg.PeriCond();
    match cfg.kind
    case MemToMem => Load(d).Some? && Store(Load(d).value) == Some(e)
    case MemToDev => Load(d).Some? && StorePeri(Asking(Load(d).value, cond), cond, cfg.peri) == Some(e)
    case DevToMem =>
      var l := LoadPeri(Asking(d, cond), cond, cfg.peri);
      l.Some? && Store(l.value) == Some(e)
  }

  /** The hardware is one the program was generated for: lock-free, or a program with barriers,
      with the peripheral it names. */
  predicate Suits(cfg: Cfg, d: Data)
  {
    && d.order.AtRest() && (cfg.revision >= 1 ==> d.order.LockFree?)
    && (!cfg.kind.MemToMem? ==> d.order.LockFree? && d.port.peri == cfg.peri && d.port.request.None?)
  }

  /** `trace[k]` is the data part after `k` bursts. */
  predicate Bursts(cfg: Cfg, trace: seq<Data>)
  {
    && (forall k | 0 <= k < |trace| - 1 :: Moves(cfg, trace[k], trace[k + 1]))
    && (forall k | 0 <= k < |trace| :: Suits(cfg, trace[k]))
  }

  function At(trace: seq<Data>, k: nat, pc: nat, lc0: u8, lc1: u8): Channel
    requires k < |trace|
  {
    Channel(pc, lc0, lc1, trace[k], false)
  }

  /** Data movement itself leaves the order alone. */
  lemma OrderKept(d: Data)
    ensures Load(d).Some? ==> Load(d).value.order == d.order
    ensures Load(d).Some? && Store(Load(d).value).Some? ==> Store(Load(d).value).value.order == d.order
  {
    hide BurstBytes, PlainCcr, Splice;
  }

  /** DMALD, DMAST. */
  lemma PairRuns(code: seq<u8>, s: Channel, e: Data)
    requires !s.halted && Load(s.data).Some? && Store(Load(s.data).value) == Some(e) && s.data.order.LockFree?
    requires CodeAt(code, s.pc, Encode(LD(Always)) + Encode(ST(Always)))
    ensures Reaches(code, s, s.(pc := s.pc + 2, data := e))
  {
    OrderKept(s.data);
    hide Load, Store, Reaches;
    CodeAtSplit(code, s.pc, Encode(LD(Always)), Encode(ST(Always)));
    var s1 := s.(pc := s.pc + 1, data := Load(s.data).value);
    StepReaches(code, s, LD(Always), s1);
    StepReaches(code, s1, ST(Always), s.(pc := s.pc + 2, data := e));
    ReachTrans(code, s, s1, s.(pc := s.pc + 2, data := e));
  }

  /** DMALD, DMARMB, DMAST, DMAWMB. */
  lemma FencedPairRuns(code: seq<u8>, s: Channel, e: Data)
    requires !s.halted && Load(s.data).Some? && Store(Load(s.data).value) == Some(e) && s.data.order.AtRest()
    requires CodeAt(code, s.pc, Encode(LD(Always)) + Encode(RMB) + Encode(ST(Always)) + Encode(WMB))
    ensures Reaches(code, s, s.(pc := s.pc + 4, data := e))
  {
    OrderKept(s.data);
    assert |Encode(LD(Always))| == 1 && |Encode(RMB)| == 1 && |Encode(ST(Always))| == 1;
    hide Load, Store, Reaches, CodeAt, Encode;
    CodeAtSplit(code, s.pc, Encode(LD(Always)) + Encode(RMB) + Encode(ST(Always)), Encode(WMB));
    CodeAtSplit(code, s.pc, Encode(LD(Always)) + Encode(RMB), Encode(ST(Always)));
    CodeAtSplit(code, s.pc, Encode(LD(Always)), Encode(RMB));
    var loaded, lock := Load(s.data).value, s.data.order;
    var s1 := s.(pc := s.pc + 1, data := loaded.(order := if lock.LockFree? then LockFree else Loaded));
    var s2 := s.(pc := s.pc + 2, data := loaded);
    var s3 := s.(pc := s.pc + 3, data := e.(order := if lock.LockFree? then LockFree else Stored));
    var s4 := s.(pc := s.pc + 4, data := e);
    StepReaches(code, s, LD(Always), s1);
    StepReaches(code, s1, RMB, s2);
    StepReaches(code, s2, ST(Always), s3);
    StepReaches(code, s3, WMB, s4);
    ReachTrans(code, s, s1, s2);
    ReachTrans(code, s, s2, s3);
    ReachTrans(code, s, s3, s4);
  }

  /** The instructions of one burst move burst `k`. */
  lemma OneBurstRuns(code: seq<u8>, cfg: Cfg, trace: seq<Data>, k: nat, pc: nat, lc0: u8, lc1: u8)
    requires cfg.Valid() && Bursts(cfg, trace) && k < |trace| - 1
    requires CodeAt(code, pc, OneBurst(cfg))
    ensures Reaches(code, At(trace, k, pc, lc0, lc1), At(trace, k + 1, pc + |OneBurst(cfg)|, lc0, lc1))
  {
    hide Reaches, CodeAt, Load, Store, LoadPeri, StorePeri;
    var s := At(trace, k, pc, lc0, lc1);
    assert Moves(cfg, trace[k], trace[k + 1]) && Suits(cfg, trace[k]);
    match cfg.kind
    case MemToMem =>
      if cfg.revision >= 1 {
        PairRuns(code, s, trace[k + 1]);
      } else {
        FencedPairRuns(code, s, trace[k + 1]);
      }
    case MemToDev => ToPeriRuns(code, cfg, s, trace[k + 1]);
    case DevToMem => FromPeriRuns(code, cfg, s, trace[k + 1]);
  }

  /** A memory access does not touch the peripheral. */
  lemma PortApart(d: Data, cond: Cond)
    ensures Load(Asking(d, cond)) == if Load(d).None? then None else Some(Asking(Load(d).value, cond))
    ensures Store(d).Some? ==> Store(d).value.port == d.port
  {
    hide BurstBytes, PlainCcr, Splice;
  }

  lemma PeriAccess(d: Data, cond: Cond, peri: nat)
    ensures var s := StorePeri(Asking(d, cond), cond, peri);
            s.Some? ==> s.value.port.request.None? && s.value.order == d.order && s.value.port.peri == d.port.peri
    ensures var l := LoadPeri(Asking(d, cond), cond, peri);
            l.Some? ==> l.value.port.request.None? && l.value.order == d.order && l.value.port.peri == d.port.peri
  {
    hide BurstBytes, PlainCcr, BrstSize;
  }

  /** DMAFLUSHP, unless the quirk leaves it out, behind an answered request. */
  lemma FlushRuns(code: seq<u8>, cfg: Cfg, s: Channel)
    requires cfg.Valid() && !s.halted && CodeAt(code, s.pc, cfg.Flush()) && s.data.port.request.None?
    ensures Reaches(code, s, s.(pc := s.pc + |cfg.Flush()|))
  {
    hide Reaches, CodeAt;
    if cfg.noFlushp {
      ReachSelf(code, s);
    } else {
      StepReaches(code, s, FLUSHP(cfg.peri), s.(pc := s.pc + 2));
    }
  }

  /** Three instructions in a row. */
  lemma ThreeRun(code: seq<u8>, s: Channel, a: Instr, b: Instr, c: Instr, s1: Channel, s2: Channel, s3: Channel)
    requires Encodable(a) && Encodable(b) && Encodable(c) && CodeAt(code, s.pc, Encode(a) + Encode(b) + Encode(c))
    requires s1.pc == s.pc + |Encode(a)| && s2.pc == s1.pc + |Encode(b)| && !s.halted && !s1.halted && !s2.halted
    requires Execute(s, a) == Some(s1) && Execute(s1, b) == Some(s2) && Execute(s2, c) == Some(s3)
    ensures Reaches(code, s, s3)
  {
    hide Execute, Reaches, Encode;
    CodeAtSplit(code, s.pc, Encode(a) + Encode(b), Encode(c));
    CodeAtSplit(code, s.pc, Encode(a), Encode(b));
    hide CodeAt;
    StepReaches(code, s, a, s1);
    StepReaches(code, s1, b, s2);
    StepReaches(code, s2, c, s3);
    ReachTrans(code, s, s1, s2);
    ReachTrans(code, s, s2, s3);
  }

  /** DMAWFP, DMALD, DMASTP, perhaps DMAFLUSHP. */
  lemma ToPeriRuns(code: seq<u8>, cfg: Cfg, s: Channel, e: Data)
    requires cfg.Valid() && cfg.kind.MemToDev? && !s.halted && Moves(cfg, s.data, e) && Suits(cfg, s.data)
    requires CodeAt(code, s.pc, OneBurst(cfg))
    ensures Reaches(code, s, s.(pc := s.pc + |OneBurst(cfg)|, data := e))
  {
    hide Reaches, Encode, CodeAt, Execute, Load, StorePeri;
    var cond := cfg.PeriCond();
    var a, b, c := WFP(cond, cfg.peri), LD(Always), STP(cond, cfg.peri);
    PeriSizes(cfg);
    CodeAtSplit(code, s.pc, Encode(a) + Encode(b) + Encode(c), cfg.Flush());
    var s1 := s.(pc := s.pc + 2, data := Asking(s.data, cond));
    var s2 := s.(pc := s.pc + 3, data := Asking(Load(s.data).value, cond));
    var s3 := s.(pc := s.pc + 5, data := e);
    ToPeriSteps(cfg, s, e, s1, s2, s3);
    ThreeRun(code, s, a, b, c, s1, s2, s3);
    FlushRuns(code, cfg, s3);
    ReachTrans(code, s, s3, s3.(pc := s3.pc + |cfg.Flush()|));
  }

  lemma PeriSizes(cfg: Cfg)
    requires cfg.Valid()
    ensures |Encode(WFP(cfg.PeriCond(), cfg.peri))| == |Encode(LDP(cfg.PeriCond(), cfg.peri))| == 2
    ensures |Encode(STP(cfg.PeriCond(), cfg.peri))| == 2 && |Encode(LD(Always))| == |Encode(ST(Always))| == 1
  {
  }

  lemma ToPeriSteps(cfg: Cfg, s: Channel, e: Data, s1: Channel, s2: Channel, s3: Channel)
    requires cfg.kind.MemToDev? && !s.halted && Moves(cfg, s.data, e) && Suits(cfg, s.data)
    requires s1 == s.(pc := s.pc + 2, data := Asking(s.data, cfg.PeriCond()))
    requires s2 == s.(pc := s.pc + 3, data := Asking(Load(s.data).value, cfg.PeriCond()))
    requires s3 == s.(pc := s.pc + 5, data := e)
    ensures Execute(s, WFP(cfg.PeriCond(), cfg.peri)) == Some(s1)
    ensures Execute(s1, LD(Always)) == Some(s2) && Execute(s2, STP(cfg.PeriCond(), cfg.peri)) == Some(s3)
    ensures e.port.request.None?
  {
    OrderKept(s.data);
    PortApart(s.data, cfg.PeriCond());
    PeriAccess(Load(s.data).value, cfg.PeriCond(), cfg.peri);
    hide Load, StorePeri;
  }

  /** DMAWFP, DMALDP, DMAST, perhaps DMAFLUSHP. */
  lemma FromPeriRuns(code: seq<u8>, cfg: Cfg, s: Channel, e: Data)
    requires cfg.Valid() && cfg.kind.DevToMem? && !s.halted && Moves(cfg, s.data, e) && Suits(cfg, s.data)
    requires CodeAt(code, s.pc, OneBurst(cfg))
    ensures Reaches(code, s, s.(pc := s.pc + |OneBurst(cfg)|, data := e))
  {
    hide Reaches, Encode, CodeAt, Execute, Store, LoadPeri;
    var cond := cfg.PeriCond();
    var a, b, c := WFP(cond, cfg.peri), LDP(cond, cfg.peri), ST(Always);
    PeriSizes(cfg);
    CodeAtSplit(code, s.pc, Encode(a) + Encode(b) + Encode(c), cfg.Flush());
    var s1 := s.(pc := s.pc + 2, data := Asking(s.data, cond));
    var s2 := s.(pc := s.pc + 4, data := LoadPeri(Asking(s.data, cond), cond, cfg.peri).value);
    var s3 := s.(pc := s.pc + 5, data := e);
    FromPeriSteps(cfg, s, e, s1, s2, s3);
    ThreeRun(code, s, a, b, c, s1, s2, s3);
    FlushRuns(code, cfg, s3);
    ReachTrans(code, s, s3, s3.(pc := s3.pc + |cfg.Flush()|));
  }

  lemma FromPeriSteps(cfg: Cfg, s: Channel, e: Data, s1: Channel, s2: Channel, s3: Channel)
    requires cfg.kind.DevToMem? && !s.halted && Moves(cfg, s.data, e) && Suits(cfg, s.data)
    requires var cond := cfg.PeriCond();
             && s1 == s.(pc := s.pc + 2, data := Asking(s.data, cond))
             && s2 == s.(pc := s.pc + 4, data := LoadPeri(Asking(s.data, cond), cond, cfg.peri).value)
    requires s3 == s.(pc := s.pc + 5, data := e)
    ensures Execute(s, WFP(cfg.PeriCond(), cfg.peri)) == Some(s1)
    ensures Execute(s1, LDP(cfg.PeriCond(), cfg.peri)) == Some(s2) && Execute(s2, ST(Always)) == Some(s3)
    ensures e.port.request.None?
  {
    PeriAccess(s.data, cfg.PeriCond(), cfg.peri);
    PortApart(s2.data, cfg.PeriCond());
    StoreKept(s2.data);
    hide Store, LoadPeri;
  }

  lemma StoreKept(d: Data)
    ensures Store(d).Some? ==> Store(d).value.order == d.order
  {
    hide BurstBytes, PlainCcr, Splice;
  }

  /** The unrolled body moves `cyc` bursts. */
  lemma {:induction false} BurstsRun(code: seq<u8>, cfg: Cfg, trace: seq<Data>, k: nat, cyc: nat, pc: nat, lc0: u8,
        lc1: u8)
    requires cfg.Valid() && Bursts(cfg, trace) && k + cyc < |trace|
    requires CodeAt(code, pc, BurstsCode(cfg, cyc))
    ensures Reaches(code, At(trace, k, pc, lc0, lc1), At(trace, k + cyc, pc + |BurstsCode(cfg, cyc)|, lc0, lc1))
  {
    hide OneBurst, Bursts;
    var s := At(trace, k, pc, lc0, lc1);
    if cyc == 0 {
      assert Run(code, s, 0) == Some(s);
    } else {
      var before := BurstsCode(cfg, cyc - 1);
      CodeAtSplit(code, pc, before, OneBurst(cfg));
      BurstsRun(code, cfg, trace, k, cyc - 1, pc, lc0, lc1);
      OneBurstRuns(code, cfg, trace, k + cyc - 1, pc + |before|, lc0, lc1);
      ReachTrans(code, s, At(trace, k + cyc - 1, pc + |before|, lc0, lc1),
                 At(trace, k + cyc, pc + |before| + |OneBurst(cfg)|, lc0, lc1));
    }
  }

  /** A loop end whose counter is not exhausted jumps back. */
  lemma JumpsBack(code: seq<u8>, s: Channel, second: bool, bjump: u8)
    requires CodeAt(code, s.pc, Encode(LPEND(second, Always, bjump)))
    requires !s.halted && bjump <= s.pc && (if second then s.lc1 else s.lc0) > 0
    ensures second ==> Reaches(code, s, s.(pc := s.pc - bjump, lc1 := s.lc1 - 1))
    ensures !second ==> Reaches(code, s, s.(pc := s.pc - bjump, lc0 := s.lc0 - 1))
  {
    hide Encode;
    var t := if second then s.(pc := s.pc - bjump, lc1 := s.lc1 - 1) else s.(pc := s.pc - bjump, lc0 := s.lc0 - 1);
    StepReaches(code, s, LPEND(second, Always, bjump), t);
  }

  /** A loop end whose counter is zero falls through. */
  lemma FallsThrough(code: seq<u8>, s: Channel, second: bool, bjump: u8)
    requires CodeAt(code, s.pc, Encode(LPEND(second, Always, bjump)))
    requires !s.halted && (if second then s.lc1 else s.lc0) == 0
    ensures Reaches(code, s, s.(pc := s.pc + 2))
  {
    hide Encode;
    StepReaches(code, s, LPEND(second, Always, bjump), s.(pc := s.pc + 2));
  }

  lemma StartsLoop(code: seq<u8>, s: Channel, second: bool, iterations: u8)
    requires CodeAt(code, s.pc, Encode(LP(second, iterations))) && !s.halted
    ensures second ==> Reaches(code, s, s.(pc := s.pc + 2, lc1 := iterations))
    ensures !second ==> Reaches(code, s, s.(pc := s.pc + 2, lc0 := iterations))
  {
    hide Encode;
    var t := if second then s.(pc := s.pc + 2, lc1 := iterations) else s.(pc := s.pc + 2, lc0 := iterations);
    StepReaches(code, s, LP(second, iterations), t);
  }

  /** The inner loop, entered at its body with `c` repetitions still to come. */
  lemma {:induction false} InnerRuns(code: seq<u8>, cfg: Cfg, trace: seq<Data>, k: nat, cyc: nat, pc: nat, lc0: u8,
        c: u8)
    requires cfg.Valid() && Bursts(cfg, trace) && k + Span(cyc, c + 1) < |trace|
    requires |BurstsCode(cfg, cyc)| < 256
    requires CodeAt(code, pc, BurstsCode(cfg, cyc) + Encode(LPEND(true, Always, |BurstsCode(cfg, cyc)|)))
    ensures Reaches(code, At(trace, k, pc, lc0, c),
                    At(trace, k + Span(cyc, c + 1), pc + |BurstsCode(cfg, cyc)| + 2, lc0, 0))
    decreases c
  {
    hide BurstsCode, Bursts, Encode, CodeAt, Reaches;
    var body := BurstsCode(cfg, cyc);
    CodeAtSplit(code, pc, body, Encode(LPEND(true, Always, |body|)));
    var s, t, u := At(trace, k, pc, lc0, c), At(trace, k + cyc, pc + |body|, lc0, c),
        At(trace, k + Span(cyc, c + 1), pc + |body| + 2, lc0, 0);
    BurstsRun(code, cfg, trace, k, cyc, pc, lc0, c);
    if c == 0 {
      assert Span(cyc, 1) == Span(cyc, 0) + cyc;
      FallsThrough(code, t, true, |body|);
    } else {
      JumpsBack(code, t, true, |body|);
      InnerRuns(code, cfg, trace, k + cyc, cyc, pc, lc0, c - 1);
      ReachTrans(code, t, At(trace, k + cyc, pc, lc0, c - 1), u);
    }
    ReachTrans(code, s, t, u);
  }

  /** The single loop including its DMALP. */
  lemma SingleLoopRuns(code: seq<u8>, cfg: Cfg, trace: seq<Data>, k: nat, count: nat, cyc: nat, pc: nat, lc0: u8,
        lc1: u8)
    requires cfg.Valid() && Bursts(cfg, trace)
    requires 1 <= count <= 256 && k + Span(cyc, count) < |trace| && |BurstsCode(cfg, cyc)| < 256
    requires CodeAt(code, pc, Looped(true, count, BurstsCode(cfg, cyc)))
    ensures Reaches(code, At(trace, k, pc, lc0, lc1),
                    At(trace, k + Span(cyc, count), pc + |Looped(true, count, BurstsCode(cfg, cyc))|, lc0, 0))
  {
    hide BurstsCode, Bursts, CodeAt, Reaches, Encode, Span;
    var body := BurstsCode(cfg, cyc);
    LoopedSplit(code, pc, true, count, body);
    var s, t := At(trace, k, pc, lc0, lc1), At(trace, k, pc + 2, lc0, count - 1);
    StartsLoop(code, s, true, count - 1);
    InnerRuns(code, cfg, trace, k, cyc, pc + 2, lc0, count - 1);
    ReachTrans(code, s, t, At(trace, k + Span(cyc, count), pc + 2 + |body| + 2, lc0, 0));
  }

  lemma LoopedSplit(code: seq<u8>, pc: nat, second: bool, count: nat, body: seq<u8>)
    requires 1 <= count <= 256 && |body| < 256
    requires CodeAt(code, pc, Looped(second, count, body))
    ensures CodeAt(code, pc, Encode(LP(second, count - 1)))
    ensures CodeAt(code, pc + 2, body + Encode(LPEND(second, Always, |body|)))
  {
    var start, tail := Encode(LP(second, count - 1)), Encode(LPEND(second, Always, |body|));
    assert Looped(second, count, body) == start + (body + tail);
    CodeAtSplit(code, pc, start, body + tail);
  }

  /** The outer loop, entered at the inner DMALP with `c` repetitions still to come; one
      repetition moves `m` bursts. */
  lemma {:induction false} OuterRuns(code: seq<u8>, cfg: Cfg, trace: seq<Data>, k: nat, count: nat, cyc: nat, m: nat,
        pc: nat, c: u8, lc1: u8)
    requires cfg.Valid() && Bursts(cfg, trace)
    requires 1 <= count <= 256 && m == Span(cyc, count) && |BurstsCode(cfg, cyc)| < 252
    requires k + Span(m, c + 1) < |trace|
    requires var inner := Looped(true, count, BurstsCode(cfg, cyc));
             CodeAt(code, pc, inner + Encode(LPEND(false, Always, |inner|)))
    ensures var inner := Looped(true, count, BurstsCode(cfg, cyc));
            Reaches(code, At(trace, k, pc, c, lc1), At(trace, k + Span(m, c + 1), pc + |inner| + 2, 0, 0))
    decreases c
  {
    hide BurstsCode, Bursts, Looped, Encode, CodeAt, Reaches, CycMax;
    var inner := Looped(true, count, BurstsCode(cfg, cyc));
    CodeAtSplit(code, pc, inner, Encode(LPEND(false, Always, |inner|)));
    var s, t, u := At(trace, k, pc, c, lc1), At(trace, k + m, pc + |inner|, c, 0),
        At(trace, k + Span(m, c + 1), pc + |inner| + 2, 0, 0);
    SingleLoopRuns(code, cfg, trace, k, count, cyc, pc, c, lc1);
    if c == 0 {
      assert Span(m, 1) == Span(m, 0) + m;
      FallsThrough(code, t, false, |inner|);
    } else {
      JumpsBack(code, t, false, |inner|);
      OuterRuns(code, cfg, trace, k + m, count, cyc, m, pc, c - 1, 0);
      ReachTrans(code, t, At(trace, k + m, pc, c - 1, 0), u);
    }
    ReachTrans(code, s, t, u);
  }

  /** Executions only ever leave both counters at zero or untouched, so they are hidden here:
      some counter values are reached with `k` bursts done and control at `pc`. */
  ghost predicate Gets(code: seq<u8>, s: Channel, trace: seq<Data>, k: nat, pc: nat)
  {
    exists lc0: u8, lc1: u8 {:trigger Channel(pc, lc0, lc1, trace[k], false)} ::
      k < |trace| && Reaches(code, s, Channel(pc, lc0, lc1, trace[k], false))
  }

  /** A loop nest executes exactly `n.Bursts()` load/store pairs. */
  lemma NestRuns(code: seq<u8>, cfg: Cfg, trace: seq<Data>, k: nat, n: Nest, pc: nat, lc0: u8, lc1: u8)
    requires cfg.Valid() && Bursts(cfg, trace)
    requires n.outer <= 256 && 1 <= n.inner <= 256 && 1 <= n.cyc <= CycMax(cfg, n.outer > 0)
    requires k + n.Bursts() < |trace|
    requires CodeAt(code, pc, NestCode(cfg, n))
    ensures Gets(code, At(trace, k, pc, lc0, lc1), trace, k + n.Bursts(), pc + |NestCode(cfg, n)|)
  {
    hide BurstsCode, Bursts, CycMax, CodeAt, Encode, Reaches;
    BurstsFit(cfg, n.cyc, n.outer > 0);
    NestBursts(n);
    if n.outer == 0 {
      SingleLoopRuns(code, cfg, trace, k, n.inner, n.cyc, pc, lc0, lc1);
    } else {
      DoubleLoopRuns(code, cfg, trace, k, n.outer, n.inner, n.cyc, pc, lc1, lc0);
    }
  }

  lemma NestBursts(n: Nest)
    ensures n.Bursts() == if n.outer == 0 then Span(n.cyc, n.inner) else Span(Span(n.cyc, n.inner), n.outer)
  {
    SpanIsProduct(n.cyc, n.inner);
    SpanIsProduct(Span(n.cyc, n.inner), n.outer);
    MulAssoc(n.outer, n.inner, n.cyc);
  }

  /** The double loop including its two DMALPs. */
  lemma DoubleLoopRuns(code: seq<u8>, cfg: Cfg, trace: seq<Data>, k: nat, outer: nat, count: nat, cyc: nat, pc: nat,
        lc1: u8, lc0: u8)
    requires cfg.Valid() && Bursts(cfg, trace)
    requires 1 <= outer <= 256 && 1 <= count <= 256 && |BurstsCode(cfg, cyc)| < 252
    requires k + Span(Span(cyc, count), outer) < |trace|
    requires CodeAt(code, pc, Looped(false, outer, Looped(true, count, BurstsCode(cfg, cyc))))
    ensures Reaches(code, At(trace, k, pc, lc0, lc1),
                    At(trace, k + Span(Span(cyc, count), outer),
                       pc + |Looped(false, outer, Looped(true, count, BurstsCode(cfg, cyc)))|, 0, 0))
  {
    hide BurstsCode, Bursts, CycMax, CodeAt, Encode, Reaches, Span;
    var inner := Looped(true, count, BurstsCode(cfg, cyc));
    var s, t := At(trace, k, pc, lc0, lc1), At(trace, k, pc + 2, outer - 1, lc1);
    LoopedSplit(code, pc, false, outer, inner);
    StartsLoop(code, s, false, outer - 1);
    OuterRuns(code, cfg, trace, k, count, cyc, Span(cyc, count), pc + 2, outer - 1, lc1);
    ReachTrans(code, s, t, At(trace, k + Span(Span(cyc, count), outer), pc + 2 + |inner| + 2, 0, 0));
  }

  lemma LoopRuns(code: seq<u8>, cfg: Cfg, trace: seq<Data>, k: nat, bursts: nat, pc: nat, lc0: u8, lc1: u8)
    requires cfg.Valid() && Bursts(cfg, trace) && bursts > 0
    requires k + Consumed(cfg, bursts) < |trace|
    requires CodeAt(code, pc, LoopCode(cfg, bursts))
    ensures Gets(code, At(trace, k, pc, lc0, lc1), trace, k + Consumed(cfg, bursts), pc + |LoopCode(cfg, bursts)|)
  {
    hide Bursts, OneBurst, NestCode;
    if bursts == 1 {
      BurstsRun(code, cfg, trace, k, 1, pc, lc0, lc1);
      assert Reaches(code, At(trace, k, pc, lc0, lc1), Channel(pc + |LoopCode(cfg, 1)|, lc0, lc1, trace[k + 1], false));
    } else {
      NestRuns(code, cfg, trace, k, ChooseNest(cfg, bursts), pc, lc0, lc1);
    }
  }

  /** All the nests together execute every burst once. */
  lemma {:induction false} LoopsRun(code: seq<u8>, cfg: Cfg, trace: seq<Data>, k: nat, bursts: nat, pc: nat, lc0: u8,
        lc1: u8)
    requires cfg.Valid() && Bursts(cfg, trace) && k + bursts < |trace|
    requires CodeAt(code, pc, LoopsCode(cfg, bursts))
    ensures Gets(code, At(trace, k, pc, lc0, lc1), trace, k + bursts, pc + |LoopsCode(cfg, bursts)|)
    decreases bursts
  {
    hide Bursts, LoopCode, Consumed, CodeAt, Reaches;
    var s := At(trace, k, pc, lc0, lc1);
    if bursts == 0 {
      ReachSelf(code, s);
      assert Reaches(code, s, Channel(pc, lc0, lc1, trace[k], false));
    } else {
      var c := Consumed(cfg, bursts);
      CodeAtSplit(code, pc, LoopCode(cfg, bursts), LoopsCode(cfg, bursts - c));
      LoopRuns(code, cfg, trace, k, bursts, pc, lc0, lc1);
      var pc1 := pc + |LoopCode(cfg, bursts)|;
      var l0: u8, l1: u8 :| Reaches(code, s, Channel(pc1, l0, l1, trace[k + c], false));
      LoopsRun(code, cfg, trace, k + c, bursts - c, pc1, l0, l1);
      var pc2 := pc1 + |LoopsCode(cfg, bursts - c)|;
      var m0: u8, m1: u8 :|
        Reaches(code, At(trace, k + c, pc1, l0, l1), Channel(pc2, m0, m1, trace[k + bursts], false));
      ReachTrans(code, s, At(trace, k + c, pc1, l0, l1), Channel(pc2, m0, m1, trace[k + bursts], false));
    }
  }
}
