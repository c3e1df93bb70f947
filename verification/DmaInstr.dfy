/** The DMA-330 instructions the driver emits and their byte encodings
    (ARM CoreLink DMA-330 TRM, chapter 4). */
module DmaInstr {
  import opened Words

  datatype Cond = Single | Burst | Always
  datatype Reg = SAR | CCR | DAR

  /** `LP`/`LPEND` carry the loop counter they use (`second` picks counter 1) and the byte
      the hardware sees: an iteration count minus one, a backward distance. */
  datatype Instr =
    | MOV(dst: Reg, val: u32)
    | LP(second: bool, iterations: u8)
    | LPEND(second: bool, cond: Cond, bjump: u8)
    | LD(cond: Cond)
    | ST(cond: Cond)
    | RMB
    | WMB
    | SEV(ev: nat)
    | END
    | WFP(cond: Cond, peri: nat)
    | LDP(cond: Cond, peri: nat)
    | STP(cond: Cond, peri: nat)
    | FLUSHP(peri: nat)

  /** Five-bit operands are in range, and peripheral accesses are single or burst. */
  predicate Encodable(i: Instr)
  {
    && (i.SEV? ==> i.ev < 32)
    && (i.WFP? || i.LDP? || i.STP? || i.FLUSHP? ==> i.peri < 32)
    && (i.LDP? || i.STP? ==> !i.cond.Always?)
  }

  function Le32(v: u32): (bytes: seq<u8>)
  {
    [v % 256, v / 0x100 % 256, v / 0x1_0000 % 256, v / 0x100_0000]
  }

  function FromLe32(b: seq<u8>): (v: u32)
    requires |b| == 4
  {
    var b0: int, b1: int, b2: int, b3: int := b[0], b[1], b[2], b[3];
    b0 + 0x100 * b1 + 0x1_0000 * b2 + 0x100_0000 * b3
  }

  function CondBits(cond: Cond): u8
  {
    match cond case Single => 1 case Burst => 3 case Always => 0
  }

  function WfpBits(cond: Cond): u8
  {
    match cond case Single => 0 case Burst => 2 case Always => 1
  }

  function RegCode(r: Reg): u8
  {
    match r case SAR => 0 case CCR => 1 case DAR => 2
  }

  function Encode(i: Instr): (bytes: seq<u8>)
    requires Encodable(i)
  {
    match i
    case MOV(dst, val) => [0xbc, RegCode(dst)] + Le32(val)
    case LP(second, iterations) => [0x20 + (if second then 2 else 0), iterations]
    case LPEND(second, cond, bjump) => [0x38 + (if second then 4 else 0) + CondBits(cond), bjump]
    case LD(cond) => [0x04 + CondBits(cond)]
    case ST(cond) => [0x08 + CondBits(cond)]
    case RMB => [0x12]
    case WMB => [0x13]
    case SEV(ev) => [0x34, 8 * ev]
    case END => [0x00]
    case WFP(cond, peri) => [0x30 + WfpBits(cond), 8 * peri]
    case LDP(cond, peri) => [0x25 + (if cond.Burst? then 2 else 0), 8 * peri]
    case STP(cond, peri) => [0x29 + (if cond.Burst? then 2 else 0), 8 * peri]
    case FLUSHP(peri) => [0x35, 8 * peri]
  }

  function DecodeCond(bits: nat): Option<Cond>
  {
    if bits == 0 then Some(Always) else if bits == 1 then Some(Single)
    else if bits == 3 then Some(Burst) else None
  }

  function DecodeShort(op: u8): Option<Instr>
  {
    if op == 0x00 then Some(END)
    else if op == 0x12 then Some(RMB)
    else if op == 0x13 then Some(WMB)
    else if op / 4 == 1 && DecodeCond(op % 4).Some? then Some(LD(DecodeCond(op % 4).value))
    else if op / 4 == 2 && DecodeCond(op % 4).Some? then Some(ST(DecodeCond(op % 4).value))
    else None
  }

  function DecodeLong(op: u8, arg: u8): Option<Instr>
  {
    if op == 0x20 || op == 0x22 then Some(LP(op == 0x22, arg))
    else if op / 8 == 7 && DecodeCond(op % 4).Some? then
      Some(LPEND(op / 4 % 2 == 1, DecodeCond(op % 4).value, arg))
    else if op == 0x34 then Some(SEV(arg / 8))
    else if op == 0x30 then Some(WFP(Single, arg / 8))
    else if op == 0x31 then Some(WFP(Always, arg / 8))
    else if op == 0x32 then Some(WFP(Burst, arg / 8))
    else if op == 0x35 then Some(FLUSHP(arg / 8))
    else if op == 0x25 || op == 0x27 then Some(LDP(if op == 0x27 then Burst else Single, arg / 8))
    else if op == 0x29 || op == 0x2b then Some(STP(if op == 0x2b then Burst else Single, arg / 8))
    else None
  }

  function RegOf(b: u8): Reg
    requires b <= 2
  {
    if b == 0 then SAR else if b == 1 then CCR else DAR
  }

  /** The instruction at `pc`, read byte by byte as the controller fetches it. */
  function Decode(code: seq<u8>, pc: nat): Option<Instr>
  {
    if pc >= |code| then None
    else if DecodeShort(code[pc]).Some? then DecodeShort(code[pc])
    else if pc + 6 <= |code| && code[pc] == 0xbc && code[pc + 1] <= 2 then
      Some(MOV(RegOf(code[pc + 1]), FromLe32(code[pc + 2..pc + 6])))
    else if pc + 2 <= |code| then DecodeLong(code[pc], code[pc + 1])
    else None
  }

  /** `bytes` is found in `code` at `pc`. */
  predicate CodeAt(code: seq<u8>, pc: nat, bytes: seq<u8>)
  {
    pc + |bytes| <= |code| && code[pc..pc + |bytes|] == bytes
  }

  /** Little-endian bytes reassemble to the word they came from. */
  lemma Le32Inverse(v: u32)
    ensures FromLe32(Le32(v)) == v
  {
    assert v / 0x1_0000 / 0x100 == v / 0x100_0000;
    assert v / 0x100 / 0x100 == v / 0x1_0000;
  }

  /** What the emitters write is what the controller decodes. */
  lemma DecodeEncode(code: seq<u8>, pc: nat, i: Instr)
    requires Encodable(i)
    requires CodeAt(code, pc, Encode(i))
    ensures Decode(code, pc) == Some(i)
  {
    var bytes := Encode(i);
    assert code[pc] == bytes[0];
    if i.MOV? {
      assert code[pc + 1] == bytes[1];
      assert code[pc + 2..pc + 6] == code[pc..pc + 6][2..] == Le32(i.val);
      Le32Inverse(i.val);
    } else if |bytes| == 1 {
      DecodeEncodeShort(i);
    } else {
      assert code[pc + 1] == bytes[1];
      DecodeEncodeLong(i);
    }
  }

  lemma DecodeEncodeShort(i: Instr)
    requires i.LD? || i.ST? || i.RMB? || i.WMB? || i.END?
    ensures |Encode(i)| == 1 && DecodeShort(Encode(i)[0]) == Some(i)
  {
  }

  lemma DecodeEncodeLong(i: Instr)
    requires Encodable(i) && !(i.LD? || i.ST? || i.RMB? || i.WMB? || i.END? || i.MOV?)
    ensures |Encode(i)| == 2
    ensures DecodeShort(Encode(i)[0]).None? && Encode(i)[0] != 0xbc
    ensures DecodeLong(Encode(i)[0], Encode(i)[1]) == Some(i)
  {
  }

  lemma CodeAtSplit(code: seq<u8>, pc: nat, a: seq<u8>, b: seq<u8>)
    requires CodeAt(code, pc, a + b)
    ensures CodeAt(code, pc, a) && CodeAt(code, pc + |a|, b)
  {
    var whole := code[pc..pc + |a + b|];
    assert code[pc..pc + |a|] == whole[..|a|] == a;
    assert code[pc + |a|..pc + |a| + |b|] == whole[|a|..] == b;
  }
}
