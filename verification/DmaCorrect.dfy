/** Running a compiled memory-to-memory request: it halts, signals once and copies. */
module DmaCorrect {
  import opened Words
  import opened Arith
  import opened DmaInstr
  import opened DmaProgram
  import opened DmaMachine

  lemma {:induction false} SpanMonotone(b: nat, i: nat, k: nat)
    requires i <= k
    ensures Span(b, i) <= Span(b, k)
    ensures i < k ==> Span(b, i) + b <= Span(b, k)
  {
    if i < k {
      SpanMonotone(b, i, k - 1);
    }
  }

  /** Byte `j` of a span lies in one of its bursts. */
  lemma {:induction false} InWhichBurst(b: nat, k: nat, j: nat) returns (i: nat, r: nat)
    requires j < Span(b, k)
    ensures i < k && r < b && j == Span(b, i) + r
    ensures j >= b ==> i > 0
  {
    if j >= Span(b, k - 1) {
      i, r := k - 1, j - Span(b, k - 1);
    } else {
      i, r := InWhichBurst(b, k - 1, j);
    }
  }

  predicate Fits(size: nat, src: nat, dst: nat, n: nat)
  {
    src + n <= size && dst + n <= size
  }

  /** Memory after `k` bursts of `b` bytes have been copied one after the other. */
  ghost function CopyBursts(mem: seq<u8>, src: nat, dst: nat, b: nat, k: nat): (m: seq<u8>)
    requires Fits(|mem|, src, dst, Span(b, k))
    ensures |m| == |mem|
  {
    if k == 0 then mem
    else
      var m, at := CopyBursts(mem, src, dst, b, k - 1), Span(b, k - 1);
      Splice(m, dst + at, m[src + at..src + at + b])
  }

  /** The copy a caller asks for. */
  ghost function CopyAll(mem: seq<u8>, src: nat, dst: nat, n: nat): (m: seq<u8>)
    requires Fits(|mem|, src, dst, n)
    ensures |m| == |mem|
  {
    Splice(mem, dst, mem[src..src + n])
  }

  /** Copying front to back, one burst at a time, is safe unless the destination starts
      strictly inside the source and there is more than one burst. */
  predicate CopiesExactly(src: nat, dst: nat, n: nat, b: nat)
  {
    dst <= src || src + n <= dst || n <= b
  }

  lemma {:induction false} OutsideUnchanged(mem: seq<u8>, src: nat, dst: nat, b: nat, k: nat, p: nat)
    requires Fits(|mem|, src, dst, Span(b, k))
    requires p < |mem| && !(dst <= p < dst + Span(b, k))
    ensures CopyBursts(mem, src, dst, b, k)[p] == mem[p]
  {
    if k > 0 {
      OutsideUnchanged(mem, src, dst, b, k - 1, p);
    }
  }

  lemma SpliceByte(pre: seq<u8>, off: nat, bytes: seq<u8>, p: nat)
    requires off + |bytes| <= |pre| && p < |pre|
    ensures Splice(pre, off, bytes)[p] == if off <= p < off + |bytes| then bytes[p - off] else pre[p]
  {
  }

  lemma CopyNext(mem: seq<u8>, src: nat, dst: nat, b: nat, k: nat)
    requires Fits(|mem|, src, dst, Span(b, k + 1))
    ensures Span(b, k + 1) == Span(b, k) + b
    ensures var m, at := CopyBursts(mem, src, dst, b, k), Span(b, k);
            CopyBursts(mem, src, dst, b, k + 1) == Splice(m, dst + at, m[src + at..src + at + b])
  {
    hide Splice;
  }

  /** What burst `k` writes, and what it leaves. */
  lemma CopyStep(mem: seq<u8>, src: nat, dst: nat, b: nat, k: nat, p: nat)
    requires Fits(|mem|, src, dst, Span(b, k + 1)) && p < |mem|
    ensures Fits(|mem|, src, dst, Span(b, k))
    ensures var m, at := CopyBursts(mem, src, dst, b, k), Span(b, k);
            CopyBursts(mem, src, dst, b, k + 1)[p]
            == if dst + at <= p < dst + at + b then m[p - dst + src] else m[p]
  {
    hide CopyBursts, Splice;
    CopyNext(mem, src, dst, b, k);
    hide Span;
    var m, at := CopyBursts(mem, src, dst, b, k), Span(b, k);
    SpliceByte(m, dst + at, m[src + at..src + at + b], p);
  }

  /** Destination byte `r` of burst `i` is what the source held when burst `i` was loaded. */
  lemma {:induction false} BurstByte(mem: seq<u8>, src: nat, dst: nat, b: nat, k: nat, i: nat, r: nat)
    requires Fits(|mem|, src, dst, Span(b, k))
    requires i < k && r < b
    ensures Span(b, i) + b <= Span(b, k)
    ensures CopyBursts(mem, src, dst, b, k)[dst + Span(b, i) + r]
            == CopyBursts(mem, src, dst, b, i)[src + Span(b, i) + r]
  {
    hide CopyBursts;
    SpanMonotone(b, i, k);
    SpanMonotone(b, i, k - 1);
    hide Span;
    CopyStep(mem, src, dst, b, k - 1, dst + Span(b, i) + r);
    if i < k - 1 {
      BurstByte(mem, src, dst, b, k - 1, i, r);
    }
  }

  lemma SafeByte(mem: seq<u8>, src: nat, dst: nat, b: nat, k: nat, j: nat)
    requires Fits(|mem|, src, dst, Span(b, k)) && j < Span(b, k)
    requires CopiesExactly(src, dst, Span(b, k), b)
    ensures CopyBursts(mem, src, dst, b, k)[dst + j] == mem[src + j]
  {
    hide CopyBursts;
    var i, r := InWhichBurst(b, k, j);
    BurstByte(mem, src, dst, b, k, i, r);
    if Span(b, k) <= b {
      SpanMonotone(b, 0, i);
    }
    OutsideUnchanged(mem, src, dst, b, i, src + j);
  }

  lemma SafeCopy(mem: seq<u8>, src: nat, dst: nat, b: nat, k: nat)
    requires Fits(|mem|, src, dst, Span(b, k))
    requires CopiesExactly(src, dst, Span(b, k), b)
    ensures CopyBursts(mem, src, dst, b, k) == CopyAll(mem, src, dst, Span(b, k))
  {
    hide CopyBursts, CopyAll, CopiesExactly;
    var m, want := CopyBursts(mem, src, dst, b, k), CopyAll(mem, src, dst, Span(b, k));
    forall p | 0 <= p < |mem|
      ensures m[p] == want[p]
    {
      CopyAllByte(mem, src, dst, Span(b, k), p);
      if dst <= p < dst + Span(b, k) {
        SafeByte(mem, src, dst, b, k, p - dst);
      } else {
        OutsideUnchanged(mem, src, dst, b, k, p);
      }
    }
  }

  lemma CopyAllByte(mem: seq<u8>, src: nat, dst: nat, n: nat, p: nat)
    requires Fits(|mem|, src, dst, n) && p < |mem|
    ensures CopyAll(mem, src, dst, n)[p] == if dst <= p < dst + n then mem[src + (p - dst)] else mem[p]
  {
  }

  /** A memory of `size` bytes that is zero except for a one at `p`. */
  function OneByteSet(size: nat, p: nat): (m: seq<u8>)
    ensures |m| == size
  {
    seq(size, i => if i == p then 1 else 0)
  }

  /** When the condition fails some memory is copied wrongly. */
  lemma UnsafeCopy(size: nat, src: nat, dst: nat, b: nat, k: nat) returns (mem: seq<u8>)
    requires b > 0 && Fits(size, src, dst, Span(b, k))
    requires !CopiesExactly(src, dst, Span(b, k), b)
    ensures |mem| == size
    ensures CopyBursts(mem, src, dst, b, k) != CopyAll(mem, src, dst, Span(b, k))
  {
    hide CopyBursts, CopyAll;
    var o := dst - src;
    var j := if o >= b then o else b;
    mem := OneByteSet(size, src + j - o);
    var i, r := InWhichBurst(b, k, j);
    BurstByte(mem, src, dst, b, k, i, r);
    SpanMonotone(b, 0, i);
    BurstByte(mem, src, dst, b, i, 0, j - o);
    FirstBurst(mem, src, dst, b);
    assert CopyBursts(mem, src, dst, b, k)[dst + j] == mem[src + j - o] == 1;
    CopyAllByte(mem, src, dst, Span(b, k), dst + j);
  }

  lemma FirstBurst(mem: seq<u8>, src: nat, dst: nat, b: nat)
    requires Fits(|mem|, src, dst, 0)
    ensures Span(b, 0) == 0 && CopyBursts(mem, src, dst, b, 0) == mem
  {
  }

  /** Exactly when burst-wise copying is the requested copy, for every memory contents. */
  lemma OverlapExact(size: nat, src: nat, dst: nat, b: nat, k: nat)
    requires b > 0 && Fits(size, src, dst, Span(b, k))
    ensures (forall mem: seq<u8> | |mem| == size ::
               CopyBursts(mem, src, dst, b, k) == CopyAll(mem, src, dst, Span(b, k)))
       <==> CopiesExactly(src, dst, Span(b, k), b)
  {
    if CopiesExactly(src, dst, Span(b, k), b) {
      forall mem: seq<u8> | |mem| == size
        ensures CopyBursts(mem, src, dst, b, k) == CopyAll(mem, src, dst, Span(b, k))
      {
        SafeCopy(mem, src, dst, b, k);
      }
    } else {
      var mem := UnsafeCopy(size, src, dst, b, k);
    }
  }

  /** The data part once the three registers are set. */
  function HeadData(x: Xfer, d: Data): Data { d.(sar := x.src, dar := x.dst, ccr := x.ccr, fifo := []) }

  /** The data part of a channel, set up for `x` in state `d`, that has copied `k` bursts. */
  ghost function DataAfter(x: Xfer, d: Data, k: nat): Data
    requires Fits(|d.mem|, x.src, x.dst, Span(BurstBytes(x.ccr), k))
  {
    var done := Span(BurstBytes(x.ccr), k);
    HeadData(x, d).(sar := (x.src + done) % WORD, dar := (x.dst + done) % WORD,
                    mem := CopyBursts(d.mem, x.src, x.dst, BurstBytes(x.ccr), k))
  }

  lemma BurstMoves(cfg: Cfg, x: Xfer, d0: Data, k: nat)
    requires cfg.kind.MemToMem? && CopyCcr(x.ccr) && |d0.mem| <= WORD
    requires Fits(|d0.mem|, x.src, x.dst, Span(BurstBytes(x.ccr), k + 1))
    ensures Moves(cfg, DataAfter(x, d0, k), DataAfter(x, d0, k + 1))
  {
    hide BurstBytes, CopyCcr, Moves, CopyBursts, Splice;
    var b := BurstBytes(x.ccr);
    var d, at := DataAfter(x, d0, k), Span(b, k);
    assert Span(b, k + 1) == at + b;
    assert d.sar == x.src + at && d.dar == x.dst + at;
    var loaded := d.mem[x.src + at..x.src + at + b];
    LoadThenStore(cfg, d, loaded);
    NextBurst(d0.mem, x.src, x.dst, b, k);
  }

  lemma NextBurst(mem: seq<u8>, src: nat, dst: nat, b: nat, k: nat)
    requires Fits(|mem|, src, dst, Span(b, k + 1))
    ensures var m, at := CopyBursts(mem, src, dst, b, k), Span(b, k);
            CopyBursts(mem, src, dst, b, k + 1) == Splice(m, dst + at, m[src + at..src + at + b])
  {
    hide Splice;
  }

  /** A burst loaded into an empty FIFO and stored again. */
  lemma LoadThenStore(cfg: Cfg, d: Data, loaded: seq<u8>)
    requires cfg.kind.MemToMem? && CopyCcr(d.ccr) && d.fifo == []
    requires var b := BurstBytes(d.ccr);
             d.sar + b <= |d.mem| && d.dar + b <= |d.mem|
             && loaded == d.mem[d.sar..d.sar + b]
    ensures var b := BurstBytes(d.ccr);
            Moves(cfg, d, d.(sar := (d.sar + b) % WORD, dar := (d.dar + b) % WORD, mem := Splice(d.mem, d.dar, loaded)))
  {
    hide BurstBytes, PlainCcr;
    assert [] + loaded == loaded;
    assert loaded[..BurstBytes(d.ccr)] == loaded;
    assert loaded[BurstBytes(d.ccr)..] == [];
  }

  /** The data parts of the whole transfer, burst by burst. */
  lemma {:induction false} Trace(cfg: Cfg, x: Xfer, d: Data, n: nat) returns (trace: seq<Data>)
    requires cfg.kind.MemToMem? && Suits(cfg, d) && CopyCcr(x.ccr) && |d.mem| <= WORD
    requires Fits(|d.mem|, x.src, x.dst, Span(BurstBytes(x.ccr), n))
    ensures |trace| == n + 1 && Bursts(cfg, trace)
    ensures trace[0] == DataAfter(x, d, 0) && trace[n] == DataAfter(x, d, n)
  {
    hide BurstBytes, CopyCcr, Moves;
    if n == 0 {
      trace := [DataAfter(x, d, 0)];
    } else {
      trace := Trace(cfg, x, d, n - 1);
      BurstMoves(cfg, x, d, n - 1);
      trace := trace + [DataAfter(x, d, n)];
    }
  }

  /** What a channel must look like to be started: idle, nothing buffered. */
  predicate Idle(s: Channel)
  {
    !s.halted && s.data.fifo == []
  }

  /** A register move changes that register. */
  lemma MoveRuns(code: seq<u8>, s: Channel, dst: Reg, val: u32)
    requires !s.halted && CodeAt(code, s.pc, Encode(MOV(dst, val)))
    ensures Reaches(code, s, s.(pc := s.pc + 6, data := match dst case SAR => s.data.(sar := val)
                                                             case CCR => s.data.(ccr := val)
                                                             case DAR => s.data.(dar := val)))
  {
    hide CodeAt, Encode, Reaches;
    StepReaches(code, s, MOV(dst, val), s.(pc := s.pc + 6, data := match dst case SAR => s.data.(sar := val)
                                                                       case CCR => s.data.(ccr := val)
                                                                       case DAR => s.data.(dar := val)));
  }

  /** The three moves at the head of a request. */
  lemma HeadRuns(code: seq<u8>, x: Xfer, s: Channel)
    requires Idle(s)
    requires CodeAt(code, s.pc, Encode(MOV(CCR, x.ccr)) + (Encode(MOV(SAR, x.src)) + Encode(MOV(DAR, x.dst))))
    ensures Reaches(code, s, s.(pc := s.pc + 18, data := HeadData(x, s.data)))
  {
    var s1 := s.(pc := s.pc + 6, data := s.data.(ccr := x.ccr));
    var s2 := s1.(pc := s.pc + 12, data := s1.data.(sar := x.src));
    var s3 := s2.(pc := s.pc + 18, data := s2.data.(dar := x.dst));
    assert |Encode(MOV(CCR, x.ccr))| == 6 && |Encode(MOV(SAR, x.src))| == 6;
    hide CodeAt, Encode, Reaches;
    CodeAtSplit(code, s.pc, Encode(MOV(CCR, x.ccr)), Encode(MOV(SAR, x.src)) + Encode(MOV(DAR, x.dst)));
    CodeAtSplit(code, s.pc + 6, Encode(MOV(SAR, x.src)), Encode(MOV(DAR, x.dst)));
    MoveRuns(code, s, CCR, x.ccr);
    MoveRuns(code, s1, SAR, x.src);
    MoveRuns(code, s2, DAR, x.dst);
    ReachTrans(code, s, s1, s2);
    ReachTrans(code, s, s2, s3);
  }

  /** The event and the end at the tail of a request. */
  lemma TrailerRuns(code: seq<u8>, ev: u8, s: Channel)
    requires !s.halted && CodeAt(code, s.pc, Trailer(ev))
    ensures Reaches(code, s, s.(pc := s.pc + 2, halted := true,
                                data := s.data.(events := s.data.events + [ev % 32])))
  {
    var s1 := s.(pc := s.pc + 2, data := s.data.(events := s.data.events + [ev % 32]));
    CodeAtSplit(code, s.pc, Encode(SEV(ev % 32)), Encode(END));
    StepReaches(code, s, SEV(ev % 32), s1);
    StepReaches(code, s1, END, s1.(halted := true));
    ReachTrans(code, s, s1, s1.(halted := true));
  }

  lemma ReqCodeSplit(code: seq<u8>, pc: nat, cfg: Cfg, x: Xfer, ev: u8)
    requires cfg.Valid() && CodeAt(code, pc, ReqCode(cfg, x, ev))
    ensures CodeAt(code, pc, Encode(MOV(CCR, x.ccr)) + (Encode(MOV(SAR, x.src)) + Encode(MOV(DAR, x.dst))))
    ensures CodeAt(code, pc + 18, LoopsCode(cfg, ByteToBurst(x.bytes, x.ccr)))
    ensures CodeAt(code, pc + 18 + |LoopsCode(cfg, ByteToBurst(x.bytes, x.ccr))|, Trailer(ev))
  {
    hide ByteToBurst, LoopsCode;
    var a, bc := Encode(MOV(CCR, x.ccr)), Encode(MOV(SAR, x.src)) + Encode(MOV(DAR, x.dst));
    var loops, t := LoopsCode(cfg, ByteToBurst(x.bytes, x.ccr)), Trailer(ev);
    assert ReqCode(cfg, x, ev) == ((a + bc) + loops) + t;
    CodeAtSplit(code, pc, (a + bc) + loops, t);
    CodeAtSplit(code, pc, a + bc, loops);
  }

  /** The memory a request touches exists and is addressable by 32-bit registers. */
  predicate InMemory(x: Xfer, size: nat)
  {
    Fits(size, x.src, x.dst, x.bytes) && size <= WORD
  }

  /** The program of a memory-to-memory request halts at DMAEND with its event signalled once
      and every burst copied, whatever the revision and the byte count. */
  lemma RequestRuns(code: seq<u8>, cfg: Cfg, x: Xfer, ev: u8, s: Channel) returns (t: Channel)
    requires cfg.Valid() && cfg.kind.MemToMem? && CopyCcr(x.ccr)
    requires x.bytes % BurstBytes(x.ccr) == 0 && InMemory(x, |s.data.mem|)
    requires Idle(s) && Suits(cfg, s.data) && CodeAt(code, s.pc, ReqCode(cfg, x, ev))
    ensures Reaches(code, s, t) && t.halted && t.data.fifo == []
    ensures t.data.events == s.data.events + [ev % 32] && t.data.ccr == x.ccr
    ensures var b, n := BurstBytes(x.ccr), ByteToBurst(x.bytes, x.ccr);
            Span(b, n) == x.bytes && t.data.mem == CopyBursts(s.data.mem, x.src, x.dst, b, n)
  {
    hide BurstBytes, ByteToBurst, CopyCcr, Bursts, ReqCode, CodeAt, Reaches, CopyBursts;
    var b, n := BurstBytes(x.ccr), ByteToBurst(x.bytes, x.ccr);
    ByteToBurstExact(x.bytes, x.ccr);
    SpanIsProduct(b, n);
    var trace := Trace(cfg, x, s.data, n);
    FirstTraceEntry(x, s.data);
    t := ProgramRuns(code, cfg, x, ev, s, trace);
  }

  /** A whole program, given what its bursts do to the data part. */
  lemma ProgramRuns(code: seq<u8>, cfg: Cfg, x: Xfer, ev: u8, s: Channel, trace: seq<Data>) returns (t: Channel)
    requires cfg.Valid() && Idle(s) && CodeAt(code, s.pc, ReqCode(cfg, x, ev))
    requires |trace| == ByteToBurst(x.bytes, x.ccr) + 1 && Bursts(cfg, trace) && trace[0] == HeadData(x, s.data)
    ensures Reaches(code, s, t) && t.halted
    ensures var d := trace[|trace| - 1]; t.data == d.(events := d.events + [ev % 32])
  {
    hide BurstBytes, ByteToBurst, Bursts, LoopsCode, Trailer, ReqCode, CodeAt, Reaches;
    var n := ByteToBurst(x.bytes, x.ccr);
    ReqCodeSplit(code, s.pc, cfg, x, ev);
    HeadRuns(code, x, s);
    var s1 := At(trace, 0, s.pc + 18, s.lc0, s.lc1);
    var s2 := LoopsReach(code, cfg, trace, n, s1);
    TrailerRuns(code, ev, s2);
    t := s2.(pc := s2.pc + 2, halted := true, data := s2.data.(events := s2.data.events + [ev % 32]));
    ReachTrans(code, s, s1, s2);
    ReachTrans(code, s, s2, t);
  }

  lemma FirstTraceEntry(x: Xfer, d: Data)
    requires Fits(|d.mem|, x.src, x.dst, 0)
    ensures DataAfter(x, d, 0) == HeadData(x, d)
  {
  }

  lemma LoopsReach(code: seq<u8>, cfg: Cfg, trace: seq<Data>, n: nat, s: Channel) returns (t: Channel)
    requires cfg.Valid() && Bursts(cfg, trace) && |trace| == n + 1
    requires s == At(trace, 0, s.pc, s.lc0, s.lc1) && CodeAt(code, s.pc, LoopsCode(cfg, n))
    ensures Reaches(code, s, t) && !t.halted && t.data == trace[n] && t.pc == s.pc + |LoopsCode(cfg, n)|
  {
    hide Bursts, LoopsCode, CodeAt, Reaches;
    LoopsRun(code, cfg, trace, 0, n, s.pc, s.lc0, s.lc1);
    var lc0: u8, lc1: u8 :| Reaches(code, s, Channel(s.pc + |LoopsCode(cfg, n)|, lc0, lc1, trace[n], false));
    t := Channel(s.pc + |LoopsCode(cfg, n)|, lc0, lc1, trace[n], false);
  }

  /** Compiler correctness: the program halts, having signalled `ev` once, with exactly
      `CopyAll` of the memory it started from. */
  lemma CompilerCorrect(code: seq<u8>, cfg: Cfg, x: Xfer, ev: u8, s: Channel)
    requires cfg.Valid() && cfg.kind.MemToMem? && CopyCcr(x.ccr)
    requires x.bytes % BurstBytes(x.ccr) == 0 && InMemory(x, |s.data.mem|)
    requires CopiesExactly(x.src, x.dst, x.bytes, BurstBytes(x.ccr))
    requires Idle(s) && Suits(cfg, s.data) && CodeAt(code, s.pc, ReqCode(cfg, x, ev))
    ensures exists t ::
      && Reaches(code, s, t) && t.halted
      && t.data.mem == CopyAll(s.data.mem, x.src, x.dst, x.bytes)
      && t.data.events == s.data.events + [ev % 32] && t.data.ccr == x.ccr
  {
    hide BurstBytes, ByteToBurst, CopyCcr, CodeAt, Reaches;
    var t := RequestRuns(code, cfg, x, ev, s);
    SafeCopy(s.data.mem, x.src, x.dst, BurstBytes(x.ccr), ByteToBurst(x.bytes, x.ccr));
  }
}
