/** Running a compiled request between memory and a peripheral, and the control words for which
    it is right. */
module DmaDevice {
  import opened Words
  import opened Arith
  import opened DmaInstr
  import opened DmaProgram
  import opened DmaMachine
  import opened DmaCorrect

  /** The memory side steps through memory, the peripheral side stays at its address. */
  predicate DeviceCcr(cfg: Cfg, ccr: u32)
  {
    && PlainCcr(ccr)
    && (cfg.kind.MemToDev? ==> SrcInc(ccr) && !DstInc(ccr))
    && (cfg.kind.DevToMem? ==> !SrcInc(ccr) && DstInc(ccr))
  }

  /** The peripheral side moves as much per request as the memory side: requests for bursts, or
      bursts of a single beat. */
  predicate Balanced(cfg: Cfg, ccr: u32) { cfg.noFlushp || BrstLen(ccr) == 1 }

  lemma BalancedBytes(cfg: Cfg, ccr: u32)
    ensures PeriBytes(ccr, cfg.PeriCond()) <= BurstBytes(ccr)
    ensures Balanced(cfg, ccr) <==> PeriBytes(ccr, cfg.PeriCond()) == BurstBytes(ccr)
  {
    hide BrstSize;
    var s, l := BrstSize(ccr), BrstLen(ccr);
    MulMonotone(1, l, s);
    if l > 1 {
      MulMonotone(2, l, s);
    }
  }

  /** Unless the two sides balance, the first burst of an idle channel already goes wrong: the
      peripheral is given less than a burst, or the store finds too little to store. */
  lemma UnbalancedFails(cfg: Cfg, d: Data, e: Data)
    requires DeviceCcr(cfg, d.ccr) && Suits(cfg, d) && d.fifo == [] && !Balanced(cfg, d.ccr)
    ensures cfg.kind.MemToDev? && Moves(cfg, d, e) ==> |e.port.output| < |d.port.output| + BurstBytes(d.ccr)
    ensures cfg.kind.DevToMem? ==> !Moves(cfg, d, e)
  {
    hide BurstBytes, PlainCcr, SrcInc, DstInc, BrstSize, BrstLen;
    BalancedBytes(cfg, d.ccr);
  }

  /** What a request between memory and a peripheral needs: whole bursts of memory, and the
      peripheral at its address, with enough to deliver. */
  predicate Served(cfg: Cfg, x: Xfer, d: Data)
  {
    && |d.mem| <= WORD
    && (cfg.kind.MemToDev? ==> x.src + x.bytes <= |d.mem| && x.dst == d.port.addr)
    && (cfg.kind.DevToMem? ==> x.dst + x.bytes <= |d.mem| && x.src == d.port.addr && x.bytes <= |d.port.input|)
  }

  /** The data part when `n` bytes have been moved. */
  function Moved(cfg: Cfg, x: Xfer, d: Data, n: nat): Data
    requires cfg.kind.MemToDev? ==> x.src + n <= |d.mem|
    requires cfg.kind.DevToMem? ==> x.dst + n <= |d.mem| && n <= |d.port.input|
  {
    var h := HeadData(x, d);
    match cfg.kind
    case MemToMem => h
    case MemToDev =>
      h.(sar := (x.src + n) % WORD, port := d.port.(output := d.port.output + d.mem[x.src..x.src + n]))
    case DevToMem =>
      h.(dar := (x.dst + n) % WORD, mem := Splice(d.mem, x.dst, d.port.input[..n]),
         port := d.port.(input := d.port.input[n..]))
  }

  lemma ToDeviceBurst(cfg: Cfg, x: Xfer, d: Data, n: nat)
    requires cfg.kind.MemToDev? && DeviceCcr(cfg, x.ccr) && Balanced(cfg, x.ccr) && Suits(cfg, d)
    requires |d.mem| <= WORD && x.src + n + BurstBytes(x.ccr) <= |d.mem| && x.dst == d.port.addr
    ensures Moves(cfg, Moved(cfg, x, d, n), Moved(cfg, x, d, n + BurstBytes(x.ccr)))
  {
    hide PlainCcr, SrcInc, DstInc, BurstBytes, PeriBytes, Load, StorePeri, Asking, Moved, Balanced;
    BalancedBytes(cfg, x.ccr);
    var b := BurstBytes(x.ccr);
    var m, loaded := Moved(cfg, x, d, n), d.mem[x.src + n..x.src + n + b];
    NextMoved(cfg, x, d, n, b);
    var l := m.(sar := (m.sar + b) % WORD, fifo := loaded);
    LoadOne(m, loaded);
    GiveAll(l, cfg.PeriCond(), cfg.peri);
  }

  lemma NextMoved(cfg: Cfg, x: Xfer, d: Data, n: nat, b: nat)
    requires cfg.kind.MemToDev? && 0 < b && x.src + n + b <= |d.mem| <= WORD && d.port.request.None?
    ensures var m := Moved(cfg, x, d, n);
            && m.sar == x.src + n && m.dar == x.dst && m.ccr == x.ccr && m.fifo == [] && m.mem == d.mem
            && m.port.addr == d.port.addr && m.port.peri == d.port.peri
    ensures var m, loaded := Moved(cfg, x, d, n), d.mem[x.src + n..x.src + n + b];
            Moved(cfg, x, d, n + b) ==
              m.(sar := (m.sar + b) % WORD, fifo := [],
                 port := m.port.(output := m.port.output + loaded, request := None))
  {
    assert d.mem[x.src..x.src + n] + d.mem[x.src + n..x.src + n + b] == d.mem[x.src..x.src + (n + b)];
    var out := d.port.output + d.mem[x.src..x.src + n];
    assert out + d.mem[x.src + n..x.src + n + b] == d.port.output + d.mem[x.src..x.src + (n + b)];
  }

  lemma LoadOne(d: Data, loaded: seq<u8>)
    requires PlainCcr(d.ccr) && SrcInc(d.ccr) && d.fifo == [] && d.sar + BurstBytes(d.ccr) <= |d.mem|
    requires loaded == d.mem[d.sar..d.sar + BurstBytes(d.ccr)]
    ensures Load(d) == Some(d.(sar := (d.sar + BurstBytes(d.ccr)) % WORD, fifo := loaded))
  {
    hide PlainCcr, SrcInc, BurstBytes;
    assert [] + loaded == loaded;
  }

  lemma GiveAll(d: Data, cond: Cond, peri: nat)
    requires PlainCcr(d.ccr) && !DstInc(d.ccr) && d.dar == d.port.addr && d.port.peri == peri
    requires |d.fifo| == PeriBytes(d.ccr, cond)
    ensures StorePeri(Asking(d, cond), cond, peri)
            == Some(d.(fifo := [], port := d.port.(output := d.port.output + d.fifo, request := None)))
  {
    hide PlainCcr, DstInc, PeriBytes;
    assert d.fifo[..|d.fifo|] == d.fifo && d.fifo[|d.fifo|..] == [];
  }

  lemma FromDeviceBurst(cfg: Cfg, x: Xfer, d: Data, n: nat)
    requires cfg.kind.DevToMem? && DeviceCcr(cfg, x.ccr) && Balanced(cfg, x.ccr) && Suits(cfg, d)
    requires |d.mem| <= WORD && x.dst + n + BurstBytes(x.ccr) <= |d.mem| && x.src == d.port.addr
    requires n + BurstBytes(x.ccr) <= |d.port.input|
    ensures Moves(cfg, Moved(cfg, x, d, n), Moved(cfg, x, d, n + BurstBytes(x.ccr)))
  {
    hide PlainCcr, SrcInc, DstInc, BurstBytes, PeriBytes, Store, LoadPeri, Asking, Moved, Balanced;
    BalancedBytes(cfg, x.ccr);
    var b := BurstBytes(x.ccr);
    var m, taken := Moved(cfg, x, d, n), d.port.input[n..n + b];
    NextDelivered(cfg, x, d, n, b);
    var l := m.(fifo := taken, port := m.port.(input := m.port.input[b..], request := None));
    TakeOne(m, cfg.PeriCond(), cfg.peri, b);
    StoreAll(l);
  }

  lemma NextDelivered(cfg: Cfg, x: Xfer, d: Data, n: nat, b: nat)
    requires cfg.kind.DevToMem? && 0 < b && x.dst + n + b <= |d.mem| <= WORD && n + b <= |d.port.input|
    requires d.port.request.None?
    ensures var m := Moved(cfg, x, d, n);
            && m.dar == x.dst + n && m.sar == x.src && m.ccr == x.ccr && m.fifo == [] && |m.mem| == |d.mem|
            && m.port.addr == d.port.addr && m.port.peri == d.port.peri && m.port.input == d.port.input[n..]
    ensures var m, taken := Moved(cfg, x, d, n), d.port.input[n..n + b];
            && taken == m.port.input[..b]
            && Moved(cfg, x, d, n + b) ==
                 m.(dar := (m.dar + b) % WORD, mem := Splice(m.mem, m.dar, taken), fifo := [],
                    port := m.port.(input := m.port.input[b..], request := None))
  {
    var input := d.port.input;
    var taken, mid := input[n..n + b], Splice(d.mem, x.dst, input[..n]);
    assert input[n..][..b] == taken && input[n..][b..] == input[n + b..] && input[..n] + taken == input[..n + b];
    WroteTwice(false, d.mem, mid, Splice(mid, x.dst + n, taken), x.dst, input[..n], taken);
  }

  lemma TakeOne(d: Data, cond: Cond, peri: nat, b: nat)
    requires PlainCcr(d.ccr) && !SrcInc(d.ccr) && d.sar == d.port.addr && d.port.peri == peri && d.fifo == []
    requires b == PeriBytes(d.ccr, cond) && b <= |d.port.input|
    ensures LoadPeri(Asking(d, cond), cond, peri) ==
              Some(d.(fifo := d.port.input[..b], port := d.port.(input := d.port.input[b..], request := None)))
  {
    hide PlainCcr, SrcInc, PeriBytes;
    assert [] + d.port.input[..b] == d.port.input[..b];
  }

  lemma StoreAll(d: Data)
    requires PlainCcr(d.ccr) && DstInc(d.ccr) && |d.fifo| == BurstBytes(d.ccr) && d.dar + |d.fifo| <= |d.mem|
    ensures Store(d) == Some(d.(dar := (d.dar + |d.fifo|) % WORD, mem := Splice(d.mem, d.dar, d.fifo), fifo := []))
  {
    hide PlainCcr, DstInc, BurstBytes, Splice;
    assert d.fifo[..|d.fifo|] == d.fifo && d.fifo[|d.fifo|..] == [];
  }

  /** The data parts burst by burst. */
  lemma {:induction false} DeviceTrace(cfg: Cfg, x: Xfer, d: Data, n: nat) returns (trace: seq<Data>)
    requires !cfg.kind.MemToMem? && DeviceCcr(cfg, x.ccr) && Balanced(cfg, x.ccr) && Suits(cfg, d) && Served(cfg, x, d)
    requires Span(BurstBytes(x.ccr), n) <= x.bytes
    ensures |trace| == n + 1 && Bursts(cfg, trace)
    ensures trace[0] == Moved(cfg, x, d, 0) && trace[n] == Moved(cfg, x, d, Span(BurstBytes(x.ccr), n))
  {
    hide BurstBytes, PlainCcr, SrcInc, DstInc, Moves, BrstLen;
    if n == 0 {
      trace := [Moved(cfg, x, d, 0)];
    } else {
      trace := DeviceTrace(cfg, x, d, n - 1);
      var done := Span(BurstBytes(x.ccr), n - 1);
      if cfg.kind.MemToDev? {
        ToDeviceBurst(cfg, x, d, done);
      } else {
        FromDeviceBurst(cfg, x, d, done);
      }
      trace := trace + [Moved(cfg, x, d, done + BurstBytes(x.ccr))];
    }
  }

  /** The program halts, having signalled `ev` once. To a peripheral: it was given the old source
      bytes in order, and memory is as it was. From a peripheral: the destination holds the bytes
      it delivered, in order, and nothing else is written. */
  lemma DeviceCorrect(code: seq<u8>, cfg: Cfg, x: Xfer, ev: u8, s: Channel)
    requires cfg.Valid() && !cfg.kind.MemToMem? && DeviceCcr(cfg, x.ccr) && Balanced(cfg, x.ccr)
    requires x.bytes % BurstBytes(x.ccr) == 0 && Served(cfg, x, s.data)
    requires Idle(s) && Suits(cfg, s.data) && CodeAt(code, s.pc, ReqCode(cfg, x, ev))
    ensures exists t ::
      && Reaches(code, s, t) && t.halted && t.data.fifo == []
      && t.data.events == s.data.events + [ev % 32] && t.data.ccr == x.ccr
      && var p, q := s.data.port, t.data.port;
         if cfg.kind.MemToDev? then
           t.data.mem == s.data.mem && q == p.(output := p.output + s.data.mem[x.src..x.src + x.bytes])
         else
           t.data.mem == Splice(s.data.mem, x.dst, p.input[..x.bytes]) && q == p.(input := p.input[x.bytes..])
  {
    hide BurstBytes, ByteToBurst, PlainCcr, Bursts, ReqCode, CodeAt, Reaches, BrstLen;
    var n := ByteToBurst(x.bytes, x.ccr);
    ByteToBurstExact(x.bytes, x.ccr);
    SpanIsProduct(BurstBytes(x.ccr), n);
    var trace := DeviceTrace(cfg, x, s.data, n);
    NothingMoved(cfg, x, s.data);
    var t := ProgramRuns(code, cfg, x, ev, s, trace);
  }

  lemma NothingMoved(cfg: Cfg, x: Xfer, d: Data)
    requires Served(cfg, x, d) && !cfg.kind.MemToMem?
    ensures Moved(cfg, x, d, 0) == HeadData(x, d)
  {
    if cfg.kind.MemToDev? {
      assert d.port.output + d.mem[x.src..x.src] == d.port.output;
    } else {
      assert Splice(d.mem, x.dst, d.port.input[..0]) == d.mem;
    }
  }
}
