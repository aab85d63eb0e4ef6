/** A plain RV32I interpreter over integers (RISC-V Unprivileged ISA, chapter 2), without FENCE,
    ECALL and EBREAK.  It shares no definition with the hardware model. */
module Isa {

  datatype Option<T> = None | Some(value: T)

  datatype AluOp = ADD | SUB | SLL | SLT | SLTU | XOR | SRL | SRA | OR | AND
  datatype Cmp = EQ | NE | LT | GE | LTU | GEU

  datatype Instr =
    | Lui(rd: nat, imm: int)
    | Auipc(rd: nat, imm: int)
    | Jal(rd: nat, imm: int)
    | Jalr(rd: nat, rs1: nat, imm: int)
    | Branch(cmp: Cmp, rs1: nat, rs2: nat, imm: int)
    | Load(bytes: nat, signed: bool, rd: nat, rs1: nat, imm: int)
    | Store(bytes: nat, rs1: nat, rs2: nat, imm: int)
    | OpImm(op: AluOp, rd: nat, rs1: nat, imm: int)
    | Op(op: AluOp, rd: nat, rs1: nat, rs2: nat)

  const XMAX: nat := 0x1_0000_0000

  function Wrap(x: int): (r: int) ensures 0 <= r < XMAX { x % XMAX }

  /** Two's complement of w bits, where m == 2^w. */
  function Signed(x: int, m: int): int { if x >= m / 2 then x - m else x }

  function Pow(n: nat): (p: nat) ensures p > 0 { if n == 0 then 1 else 2 * Pow(n - 1) }

  // ----- decoding (section 2.2 and 2.3: formats and immediates)

  /** Bits lo .. lo+len-1 of the instruction word, where a == 2^lo and b == 2^len. */
  function Bits(w: nat, a: nat, b: nat): (r: nat)
    requires a > 0 && b > 0
    ensures r < b
  {
    w / a % b
  }

  function Rd(w: nat): nat { Bits(w, 0x80, 0x20) }
  function F3(w: nat): nat { Bits(w, 0x1000, 8) }
  function Rs1(w: nat): nat { Bits(w, 0x8000, 0x20) }
  function Rs2(w: nat): nat { Bits(w, 0x10_0000, 0x20) }
  function F7(w: nat): nat { Bits(w, 0x200_0000, 0x80) }

  function ImmI(w: nat): int { Signed(Bits(w, 0x10_0000, 0x1000), 0x1000) }
  function ImmS(w: nat): int { Signed(Rd(w) + 0x20 * F7(w), 0x1000) }
  function ImmB(w: nat): int {
    Signed(2 * Bits(w, 0x100, 0x10) + 0x20 * Bits(w, 0x200_0000, 0x40) + 0x800 * Bits(w, 0x80, 2)
           + 0x1000 * Bits(w, 0x8000_0000, 2), 0x2000)
  }
  function ImmU(w: nat): int { 0x1000 * Bits(w, 0x1000, 0x10_0000) }
  function ImmJ(w: nat): int {
    Signed(2 * Bits(w, 0x20_0000, 0x400) + 0x800 * Bits(w, 0x10_0000, 2) + 0x1000 * Bits(w, 0x1000, 0x100)
           + 0x10_0000 * Bits(w, 0x8000_0000, 2), 0x20_0000)
  }

  /** Register and immediate arithmetic by funct3 and funct7. */
  function DecodeOp(f3: nat, f7: nat): Option<AluOp> {
    if f7 == 0 then
      match f3
      case 0 => Some(ADD)
      case 1 => Some(SLL)
      case 2 => Some(SLT)
      case 3 => Some(SLTU)
      case 4 => Some(XOR)
      case 5 => Some(SRL)
      case 6 => Some(OR)
      case 7 => Some(AND)
      case _ => None
    else if f7 == 0x20 && f3 == 0 then Some(SUB)
    else if f7 == 0x20 && f3 == 5 then Some(SRA)
    else None
  }

  /** Immediate arithmetic: only the shifts have a funct7. */
  function DecodeImmOp(f3: nat, f7: nat): Option<AluOp> {
    if f3 == 1 || f3 == 5 then DecodeOp(f3, f7) else DecodeOp(f3, 0)
  }

  function DecodeCmp(f3: nat): Option<Cmp> {
    match f3
    case 0 => Some(EQ)
    case 1 => Some(NE)
    case 4 => Some(LT)
    case 5 => Some(GE)
    case 6 => Some(LTU)
    case 7 => Some(GEU)
    case _ => None
  }

  function Decode(w: nat): Option<Instr> {
    var op, f3, f7 := w % 0x80, F3(w), F7(w);
    if op == 0x37 then Some(Lui(Rd(w), ImmU(w)))
    else if op == 0x17 then Some(Auipc(Rd(w), ImmU(w)))
    else if op == 0x6F then Some(Jal(Rd(w), ImmJ(w)))
    else if op == 0x67 && f3 == 0 then Some(Jalr(Rd(w), Rs1(w), ImmI(w)))
    else if op == 0x63 then
      match DecodeCmp(f3)
      case Some(c) => Some(Branch(c, Rs1(w), Rs2(w), ImmB(w)))
      case None => None
    else if op == 0x03 && f3 in {0, 1, 2, 4, 5} then
      Some(Load(if f3 % 4 == 0 then 1 else if f3 % 4 == 1 then 2 else 4, f3 < 4, Rd(w), Rs1(w), ImmI(w)))
    else if op == 0x23 && f3 < 3 then
      Some(Store(if f3 == 0 then 1 else if f3 == 1 then 2 else 4, Rs1(w), Rs2(w), ImmS(w)))
    else if op == 0x13 then
      match DecodeImmOp(f3, f7)
      case Some(o) =>
        Some(OpImm(o, Rd(w), Rs1(w), if f3 == 1 || f3 == 5 then Rs2(w) else ImmI(w)))
      case None => None
    else if op == 0x33 then
      match DecodeOp(f3, f7)
      case Some(o) => Some(Op(o, Rd(w), Rs1(w), Rs2(w)))
      case None => None
    else None
  }

  // ----- execution

  /** Program counter, registers and byte memory, all unsigned. */
  datatype Machine = Machine(pc: int, regs: seq<int>, mem: seq<int>)

  function X(m: Machine, r: nat): int { if r < |m.regs| then m.regs[r] else 0 }

  /** Bitwise operations on the low n bits. */
  function Bitwise(op: AluOp, n: nat, a: int, b: int): int {
    if n == 0 then 0
    else
      var p, q := a % 2 == 1, b % 2 == 1;
      var r := match op
        case XOR => p != q
        case OR => p || q
        case _ => p && q;
      (if r then 1 else 0) + 2 * Bitwise(op, n - 1, a / 2, b / 2)
  }

  function Compute(op: AluOp, a: int, b: int): int {
    match op
    case ADD => Wrap(a + b)
    case SUB => Wrap(a - b)
    case SLL => Wrap(a * Pow(b % 32))
    case SLT => if Signed(a, XMAX) < Signed(b, XMAX) then 1 else 0
    case SLTU => if a < b then 1 else 0
    case SRL => a / Pow(b % 32)
    case SRA => Wrap(Signed(a, XMAX) / Pow(b % 32))
    case _ => Bitwise(op, 32, a, b)
  }

  predicate Holds(c: Cmp, a: int, b: int) {
    match c
    case EQ => a == b
    case NE => a != b
    case LT => Signed(a, XMAX) < Signed(b, XMAX)
    case GE => Signed(a, XMAX) >= Signed(b, XMAX)
    case LTU => a < b
    case GEU => a >= b
  }

  /** The little-endian number in n bytes of memory. */
  function LoadBytes(mem: seq<int>, addr: int, n: nat): int
    decreases n
  {
    if n == 0 then 0
    else (if 0 <= addr < |mem| then mem[addr] else 0) + 0x100 * LoadBytes(mem, addr + 1, n - 1)
  }

  /** mem with the low n bytes of v from addr up. */
  function StoreBytes(mem: seq<int>, addr: int, n: nat, v: int): (r: seq<int>)
    ensures |r| == |mem|
    decreases n
  {
    if n == 0 then mem
    else StoreBytes(if 0 <= addr < |mem| then mem[addr := v % 0x100] else mem, addr + 1, n - 1, v / 0x100)
  }

  /** The address of a load or store. */
  function Address(m: Machine, i: Instr): int
    requires i.Load? || i.Store?
  {
    Wrap(X(m, i.rs1) + i.imm)
  }

  /** The target of a jump through a register: the lowest bit is cleared. */
  function JalrTarget(base: int, imm: int): int { Wrap(base + imm) / 2 * 2 }

  function NextPc(m: Machine, i: Instr): int {
    match i
    case Jal(_, imm) => Wrap(m.pc + imm)
    case Jalr(_, rs1, imm) => JalrTarget(X(m, rs1), imm)
    case Branch(c, rs1, rs2, imm) => if Holds(c, X(m, rs1), X(m, rs2)) then Wrap(m.pc + imm) else Wrap(m.pc + 4)
    case _ => Wrap(m.pc + 4)
  }

  predicate WritesRd(i: Instr) { !i.Branch? && !i.Store? }

  function RdValue(m: Machine, i: Instr): int
    requires WritesRd(i)
  {
    match i
    case Lui(_, imm) => imm
    case Auipc(_, imm) => Wrap(m.pc + imm)
    case Jal(_, _) => Wrap(m.pc + 4)
    case Jalr(_, _, _) => Wrap(m.pc + 4)
    case Load(n, signed, _, _, _) =>
      var v := LoadBytes(m.mem, Address(m, i), n);
      if signed then Wrap(Signed(v, Pow(8 * n))) else v
    case OpImm(op, _, rs1, imm) => Compute(op, X(m, rs1), Wrap(imm))
    case Op(op, _, rs1, rs2) => Compute(op, X(m, rs1), X(m, rs2))
  }

  function Step(m: Machine, i: Instr): Machine {
    Machine(NextPc(m, i),
            if WritesRd(i) && 0 < i.rd < |m.regs| then m.regs[i.rd := RdValue(m, i)] else m.regs,
            if i.Store? then StoreBytes(m.mem, Address(m, i), i.bytes, X(m, i.rs2)) else m.mem)
  }

  /** The data of the instruction lies in memory. */
  predicate InMemory(m: Machine, i: Instr) { i.Load? || i.Store? ==> Address(m, i) + i.bytes <= |m.mem| }

  /** The ISA raises instruction-address-misaligned on a jump or taken branch to such a target; Step
      is what happens without the exception. */
  predicate Misaligned(m: Machine, i: Instr) { NextPc(m, i) % 4 != 0 }

  /** The instruction raises no exception. */
  predicate Fine(m: Machine, i: Instr) { !Misaligned(m, i) && InMemory(m, i) }
}
