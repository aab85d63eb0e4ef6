/** Instruction decoding and control signals (RISCV_SingleCycle/decode.sv, control.sv, constants
    of risc_pkg.sv), for XLEN = 32 with Zicsr. */
module Decode {
  import opened Bits
  import Alu

  type Word = b: Bits | |b| == 32 witness Rep(32, false)

  // Major opcodes.
  const S_TYPE: nat := 0x23
  const B_TYPE: nat := 0x63
  const LUI: nat := 0x37
  const AUIPC: nat := 0x17
  const JAL: nat := 0x6F
  const R_TYPE: nat := 0x33
  const RTYPE_32: nat := 0x3B
  const I_TYPE_ALU: nat := 0x13
  const ITYPE_IMM_32: nat := 0x1B
  const I_TYPE_LOAD: nat := 0x03
  const JALR: nat := 0x67
  const I_TYPE_FL: nat := 0x07
  const SYSTEM: nat := 0x73

  // ----- fields

  function Opcode(ins: Word): nat { Val(ins[0..7]) }
  function Rd(ins: Word): (r: nat) ensures r < 32 { FieldBound(ins[7..12], 5); Val(ins[7..12]) }
  function Rs1(ins: Word): (r: nat) ensures r < 32 { FieldBound(ins[15..20], 5); Val(ins[15..20]) }
  function Rs2(ins: Word): (r: nat) ensures r < 32 { FieldBound(ins[20..25], 5); Val(ins[20..25]) }
  predicate Is32Bit(ins: Word) { !OrAll(ins[0..7]) || (ins[0] && ins[1]) }
  function Funct3(ins: Word): nat { if Is32Bit(ins) then Val(ins[12..15]) else Val(ins[13..16]) }

  lemma FieldBound(f: Bits, n: nat)
    requires |f| == n
    ensures Val(f) < Pow2(n)
  {
    ValBound(f);
  }

  // ----- the five immediate formats

  function ImmJ(ins: Word): Word {
    [false] + ins[21..31] + [ins[20]] + ins[12..20] + Rep(12, ins[31])
  }
  function ImmB(ins: Word): Word {
    [false] + ins[8..12] + ins[25..31] + [ins[7]] + Rep(20, ins[31])
  }
  function ImmS(ins: Word): Word { ins[7..12] + ins[25..31] + Rep(21, ins[31]) }
  function ImmI(ins: Word): Word { ins[20..32] + Rep(20, ins[31]) }
  function ImmU(ins: Word): Word { Rep(12, false) + ins[12..32] }

  // ----- instruction classes

  predicate RType(ins: Word) { Opcode(ins) == R_TYPE || Opcode(ins) == RTYPE_32 }
  predicate SType(ins: Word) { Opcode(ins) == S_TYPE }
  predicate BType(ins: Word) { Opcode(ins) == B_TYPE }
  predicate UType(ins: Word) { Opcode(ins) == LUI || Opcode(ins) == AUIPC }
  predicate JType(ins: Word) { Opcode(ins) == JAL }
  predicate IType(ins: Word) {
    var op := Opcode(ins);
    op == I_TYPE_ALU || op == I_TYPE_LOAD || op == JALR || op == ITYPE_IMM_32
    || (op == SYSTEM && Funct3(ins) != 4)
  }

  /** CSR instructions, and the other system instructions. */
  predicate CType(ins: Word) { Opcode(ins) == SYSTEM && Funct3(ins) != 4 && Funct3(ins) != 0 }
  predicate YType(ins: Word) { Opcode(ins) == SYSTEM && Funct3(ins) == 0 && Rs1(ins) == 0 && Rd(ins) == 0 }

  predicate Known(op: nat) {
    op in {S_TYPE, B_TYPE, LUI, AUIPC, JAL, R_TYPE, RTYPE_32, I_TYPE_ALU, ITYPE_IMM_32, I_TYPE_LOAD, JALR, SYSTEM}
  }

  predicate Illegal(ins: Word) {
    var op, f3 := Opcode(ins), Funct3(ins);
    || !Known(op)
    || (op == B_TYPE && (f3 == 2 || f3 == 3))
    || (op == SYSTEM && (f3 == 4 || (f3 == 0 && !(Rs1(ins) == 0 && Rd(ins) == 0))))
  }

  function Immediate(ins: Word): Word {
    if SType(ins) then ImmS(ins)
    else if IType(ins) then ImmI(ins)
    else if BType(ins) then ImmB(ins)
    else if UType(ins) then ImmU(ins)
    else if JType(ins) then ImmJ(ins)
    else Rep(32, false)
  }

  // ----- control

  datatype RfSel = FromAlu | FromMem | FromImm | FromPc

  // Memory block sizes, as the funct3 codes that name them.
  const BYTE: nat := 0
  const HALF: nat := 1
  const WORD: nat := 2
  const DUBL: nat := 3
  const TRPL: nat := 7

  predicate Bit30(ins: Word) { ins[30] }
  predicate RfEn(ins: Word) { !SType(ins) && !BType(ins) }
  predicate AlubSel(ins: Word) { !RType(ins) }
  predicate DmemWr(ins: Word) { SType(ins) }

  /** Loads: I-type with opcode bits 4 and 5 clear. */
  predicate LType(ins: Word) { IType(ins) && !ins[4] && !ins[5] }

  /** funct3[2] on a load. */
  predicate DmemZeroEx(ins: Word) { LType(ins) && Funct3(ins) >= 4 }

  function RfSelect(ins: Word): RfSel {
    var op := Opcode(ins);
    if op == LUI then FromImm
    else if op == JAL || op == JALR then FromPc
    else if op == I_TYPE_LOAD || op == I_TYPE_FL then FromMem
    else FromAlu
  }

  predicate AluaSel(ins: Word) { var op := Opcode(ins); op == B_TYPE || op == JAL || op == AUIPC }
  predicate PcSel(ins: Word) { var op := Opcode(ins); op == JAL || op == JALR }

  function DmemSize(ins: Word): nat {
    if SType(ins) || LType(ins) then
      match Funct3(ins)
      case 0 => BYTE
      case 4 => BYTE
      case 1 => HALF
      case 5 => HALF
      case 2 => WORD
      case 6 => WORD
      case 3 => DUBL
      case 7 => TRPL
      case _ => WORD
    else WORD
  }

  /** Register and immediate arithmetic share the funct3 codes; only SUB is register-only. */
  function AluOpOf(f3: nat, bit30: bool, isReg: bool): Alu.Op {
    match f3
    case 1 => Alu.SLL
    case 2 => Alu.SLT
    case 3 => Alu.SLTU
    case 4 => Alu.XOR
    case 5 => if bit30 then Alu.SRA else Alu.SRL
    case 6 => Alu.OR
    case 7 => Alu.AND
    case _ => if bit30 && isReg then Alu.SUB else Alu.ADD
  }

  function AluOp(ins: Word): Alu.Op {
    var f3 := Funct3(ins);
    if CType(ins) then
      if f3 == 2 || f3 == 6 then Alu.OR else if f3 == 3 || f3 == 7 then Alu.AND else Alu.ADD
    else if IType(ins) && ins[4] then AluOpOf(f3, Bit30(ins), false)
    else if RType(ins) then AluOpOf(f3, Bit30(ins), true)
    else Alu.ADD
  }
}
