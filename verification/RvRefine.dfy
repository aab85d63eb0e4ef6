/** The single-cycle core refines the RV32I interpreter (riscv_core.sv:190-301): one falling and
    one rising edge do exactly what one instruction of the ISA does, with one exception, which
    is characterised exactly. */
module RvRefine {
  import opened Bits
  import opened Decode
  import opened RvValues
  import opened RvUnits
  import Alu
  import Memory
  import Csr
  import C = Core
  import Isa

  /** The machine state the ISA sees. */
  function Abs(k: C.Core): Isa.Machine {
    Isa.Machine(Val(k.pc), Numbers(k.regs), Numbers(k.mem))
  }

  /** Fetch is on, the PC is aligned, and no interrupt is about to be taken. */
  ghost predicate Ready(k: C.Core, x: C.In) {
    && C.Valid(k) && k.imemReq && Val(k.pc) % 4 == 0
    && !Csr.Interrupt(k.csr, x.irq, x.ins)
  }

  /** x presents the instruction i. */
  ghost predicate Presents(x: C.In, i: Isa.Instr) { Isa.Decode(Val(x.ins)) == Isa.Some(i) }

  // ----- decoding

  lemma BitsOfSeven(a: Bits)
    requires |a| == 7
    ensures Val(a) == B2N(a[0]) + 2 * B2N(a[1]) + 4 * B2N(a[2]) + 8 * B2N(a[3]) + 16 * B2N(a[4]) + 32 * B2N(a[5])
                      + 64 * B2N(a[6])
  {
    Peel(a, 0); Peel(a, 1); Peel(a, 2); Peel(a, 3); Peel(a, 4); Peel(a, 5); Peel(a, 6);
    assert a[0..] == a;
  }

  lemma Peel(a: Bits, k: nat)
    requires k < |a|
    ensures Val(a[k..]) == B2N(a[k]) + 2 * Val(a[k + 1..])
  {
    assert a[k..][1..] == a[k + 1..];
  }

  /** The opcode and funct7 bits the control logic looks at on its own. */
  lemma ControlBits(ins: Word)
    ensures Opcode(ins) in {I_TYPE_ALU, I_TYPE_LOAD, JALR} ==>
      ins[4] == (Opcode(ins) == I_TYPE_ALU) && ins[5] == (Opcode(ins) == JALR)
    ensures Val(ins[25..32]) == 0 ==> !ins[30]
    ensures Val(ins[25..32]) == 0x20 ==> ins[30]
  {
    BitsOfSeven(ins[0..7]);
    BitsOfSeven(ins[25..32]);
    assert ins[0..7][4] == ins[4] && ins[0..7][5] == ins[5] && ins[25..32][5] == ins[30];
  }

  /** The opcodes of RV32I without FENCE and SYSTEM. */
  predicate BaseOpcode(op: nat) {
    || op == 0x37 || op == 0x17 || op == 0x6F || op == 0x67 || op == 0x63
    || op == 0x03 || op == 0x23 || op == 0x13 || op == 0x33
  }

  lemma DecodedWord(w: nat, i: Isa.Instr)
    requires Isa.Decode(w) == Isa.Some(i)
    ensures BaseOpcode(w % 0x80)
    ensures w % 0x80 == 0x63 ==> Isa.F3(w) != 2 && Isa.F3(w) != 3
  {
  }

  lemma BaseIs32Bit(w: nat)
    requires BaseOpcode(w % 0x80)
    ensures w % 4 == 3
  {
    LowTwo(w / 0x80, w % 0x80);
  }

  lemma LowTwo(q: nat, op: nat)
    requires BaseOpcode(op)
    ensures (0x80 * q + op) % 4 == 3
  {
    Mod4(3, 0x20 * q + op / 4);
  }

  lemma BaseIsLegal(ins: Word)
    requires BaseOpcode(Opcode(ins)) && (Opcode(ins) == 0x63 ==> Funct3(ins) != 2 && Funct3(ins) != 3)
    ensures !Illegal(ins) && !CType(ins) && !YType(ins)
  {
  }

  /** An RV32I instruction is a legal 32-bit encoding and no system instruction. */
  lemma Legal(x: C.In, i: Isa.Instr)
    requires Presents(x, i)
    ensures Is32Bit(x.ins) && Opcode(x.ins) == Val(x.ins) % 0x80
    ensures !Illegal(x.ins) && !CType(x.ins) && !YType(x.ins) && OrAll(x.ins)
  {
    DecodedWord(Val(x.ins), i);
    BaseIs32Bit(Val(x.ins));
    Is32BitIff(x.ins);
    FieldsAre(x.ins);
    BaseIsLegal(x.ins);
    ValZeroIff(x.ins);
  }

  /** It causes no exception, so no trap starts or ends. */
  lemma Undisturbed(k: C.Core, x: C.In, i: Isa.Instr)
    requires Presents(x, i) && Val(k.pc) % 4 == 0 && !Csr.Interrupt(k.csr, x.irq, x.ins)
    ensures !C.Start(k, x) && !C.Stop(x) && !Csr.WrEn(x.ins)
    ensures !Csr.Request(k.csr, x.irq, k.imemReq, k.pc, x.ins)
  {
    Legal(x, i);
    LowBits(k.pc);
  }

  // ----- operands

  /** The PC adder adds 4. */
  lemma NextPcDefaultIs(k: C.Core, x: C.In)
    requires k.imemReq && Is32Bit(x.ins)
    ensures Val(C.NextPcDefault(k, x)) == Isa.Wrap(Val(k.pc) + 4)
  {
    var step := [false, false, true] + Rep(29, false);
    ZeroExtendVal([false, false, true], 29);
    FourIs();
    AdderIs(k.pc, step);
  }

  lemma FourIs()
    ensures Val([false, false, true]) == 4
  {
    ZeroBelow([false, true]);
    ZeroBelow([true]);
    assert [false, false, true] == [false] + [false, true] && [false, true] == [false] + [true];
  }

  /** Clearing the lowest bit. */
  lemma ClearedLow(a: Word)
    ensures Val([false] + a[1..]) == Val(a) / 2 * 2
  {
    ZeroBelow(a[1..]);
    Halve(B2N(a[0]), Val(a[1..]));
  }

  lemma Halve(b: nat, q: int)
    requires b < 2
    ensures (b + 2 * q) / 2 == q
  {
  }

  // ----- what each class of instruction selects

  /** The immediate and the address arithmetic of every instruction that adds. */
  predicate Adds(i: Isa.Instr) { i.Auipc? || i.Jal? || i.Jalr? || i.Branch? || i.Load? || i.Store? }

  /** The first operand of that addition. */
  function Base(m: Isa.Machine, i: Isa.Instr): int
    requires Adds(i)
  {
    match i
    case Jalr(_, rs1, _) => Isa.X(m, rs1)
    case Load(_, _, _, rs1, _) => Isa.X(m, rs1)
    case Store(_, rs1, _, _) => Isa.X(m, rs1)
    case _ => m.pc
  }

  /** The immediate each class uses, in hardware and in the ISA. */
  function HwImm(ins: Word, i: Isa.Instr): Word
    requires Adds(i)
  {
    match i
    case Auipc(_, _) => ImmU(ins)
    case Jal(_, _) => ImmJ(ins)
    case Branch(_, _, _, _) => ImmB(ins)
    case Store(_, _, _, _) => ImmS(ins)
    case _ => ImmI(ins)
  }

  function IsaImm(w: nat, i: Isa.Instr): int
    requires Adds(i)
  {
    match i
    case Auipc(_, _) => Isa.ImmU(w)
    case Jal(_, _) => Isa.ImmJ(w)
    case Branch(_, _, _, _) => Isa.ImmB(w)
    case Store(_, _, _, _) => Isa.ImmS(w)
    case _ => Isa.ImmI(w)
  }

  lemma ImmediateKind(x: C.In, i: Isa.Instr)
    requires Presents(x, i) && Adds(i)
    ensures Immediate(x.ins) == HwImm(x.ins, i) && i.imm == IsaImm(Val(x.ins), i)
  {
    Legal(x, i);
  }

  lemma ImmediateIs(ins: Word, i: Isa.Instr)
    requires Adds(i)
    ensures Isa.Wrap(SVal(HwImm(ins, i))) == Isa.Wrap(IsaImm(Val(ins), i))
  {
    match i
    case Auipc(_, _) =>
      ImmUIs(ins);
      ValIsWrapped(ImmU(ins));
    case Jal(_, _) => ImmJIs(ins);
    case Branch(_, _, _, _) => ImmBIs(ins);
    case Store(_, _, _, _) => ImmSIs(ins);
    case _ => ImmIIs(ins);
  }

  /** Operation and operands of an instruction that adds. */
  ghost predicate AddSelected(m: Isa.Machine, i: Isa.Instr, op: Alu.Op, a: Word, b: Word) {
    Adds(i) && op == Alu.ADD && Isa.Wrap(SVal(b)) == Isa.Wrap(i.imm) && Val(a) == Base(m, i)
  }

  lemma SelectAdd(k: C.Core, x: C.In, i: Isa.Instr)
    requires C.Shape(k) && Presents(x, i) && Adds(i) && !C.Start(k, x) && !C.Stop(x)
    ensures AddSelected(Abs(k), i, AluOp(x.ins), C.AluA(k, x), C.AluB(k, x))
  {
    ImmediateKind(x, i);
    ImmediateIs(x.ins, i);
    SelectAddOperands(k, x, i);
  }

  function AddOpcode(i: Isa.Instr): nat
    requires Adds(i)
  {
    match i
    case Auipc(_, _) => AUIPC
    case Jal(_, _) => JAL
    case Jalr(_, _, _) => JALR
    case Branch(_, _, _, _) => B_TYPE
    case Load(_, _, _, _, _) => I_TYPE_LOAD
    case _ => S_TYPE
  }

  lemma AddDecoded(x: C.In, i: Isa.Instr)
    requires Presents(x, i) && Adds(i)
    ensures Opcode(x.ins) == AddOpcode(i) && !CType(x.ins)
    ensures i.Jalr? || i.Load? || i.Store? ==> Rs1(x.ins) == i.rs1
  {
    Legal(x, i);
    FieldsAre(x.ins);
  }

  lemma AddOperation(ins: Word, i: Isa.Instr)
    requires Adds(i) && Opcode(ins) == AddOpcode(i) && !CType(ins)
    ensures AluOp(ins) == Alu.ADD && !RType(ins)
  {
    ControlBits(ins);
  }

  lemma AddFirst(k: C.Core, x: C.In, i: Isa.Instr)
    requires C.Shape(k) && Adds(i) && Opcode(x.ins) == AddOpcode(i) && !CType(x.ins) && !C.Start(k, x) && !C.Stop(x)
    requires i.Jalr? || i.Load? || i.Store? ==> Rs1(x.ins) == i.rs1
    ensures Val(C.AluA(k, x)) == Base(Abs(k), i)
  {
  }

  lemma AddSecond(k: C.Core, x: C.In)
    requires C.Shape(k) && !RType(x.ins) && !CType(x.ins) && !C.Start(k, x) && !C.Stop(x)
    ensures C.AluB(k, x) == Immediate(x.ins)
  {
  }

  lemma SelectAddOperands(k: C.Core, x: C.In, i: Isa.Instr)
    requires C.Shape(k) && Presents(x, i) && Adds(i) && !C.Start(k, x) && !C.Stop(x)
    ensures AluOp(x.ins) == Alu.ADD && C.AluB(k, x) == Immediate(x.ins)
    ensures Val(C.AluA(k, x)) == Base(Abs(k), i)
  {
    AddDecoded(x, i);
    AddOperation(x.ins, i);
    AddFirst(k, x, i);
    AddSecond(k, x);
  }

  /** Operation and operands of register arithmetic. */
  ghost predicate OpSelected(m: Isa.Machine, i: Isa.Instr, op: Alu.Op, a: Word, b: Word) {
    i.Op? && op == HwOp(i.op) && Val(a) == Isa.X(m, i.rs1) && Val(b) == Isa.X(m, i.rs2)
  }

  lemma SelectOp(k: C.Core, x: C.In, i: Isa.Instr)
    requires C.Shape(k) && Presents(x, i) && i.Op? && !C.Start(k, x) && !C.Stop(x)
    ensures OpSelected(Abs(k), i, AluOp(x.ins), C.AluA(k, x), C.AluB(k, x))
  {
    Legal(x, i);
    FieldsAre(x.ins);
    ControlBits(x.ins);
  }

  predicate Shifts(op: Isa.AluOp) { op == Isa.SLL || op == Isa.SRL || op == Isa.SRA }

  /** The same with an immediate, of which a shift uses the low five bits. */
  ghost predicate OpImmSelected(m: Isa.Machine, ins: Word, i: Isa.Instr, op: Alu.Op, a: Word, b: Word) {
    && i.OpImm? && op == HwOp(i.op) && Val(a) == Isa.X(m, i.rs1) && b == ImmI(ins)
    && i.imm == if Shifts(i.op) then Rs2(ins) else Isa.ImmI(Val(ins))
  }

  /** The encoding of immediate arithmetic. */
  ghost predicate OpImmWord(ins: Word, i: Isa.Instr) {
    && i.OpImm? && Opcode(ins) == I_TYPE_ALU && !CType(ins) && ins[4]
    && Isa.DecodeImmOp(Funct3(ins), Val(ins[25..32])) == Isa.Some(i.op) && Rs1(ins) == i.rs1
    && i.imm == if Funct3(ins) == 1 || Funct3(ins) == 5 then Rs2(ins) else Isa.ImmI(Val(ins))
  }

  lemma OpImmDecoded(x: C.In, i: Isa.Instr)
    requires Presents(x, i) && i.OpImm?
    ensures OpImmWord(x.ins, i)
  {
    Legal(x, i);
    FieldsAre(x.ins);
    ControlBits(x.ins);
  }

  lemma OpImmOperation(ins: Word, i: Isa.Instr)
    requires OpImmWord(ins, i)
    ensures AluOp(ins) == HwOp(i.op) && (Shifts(i.op) <==> Funct3(ins) == 1 || Funct3(ins) == 5)
  {
    ControlBits(ins);
  }

  lemma OpImmOperands(k: C.Core, x: C.In)
    requires C.Shape(k) && Opcode(x.ins) == I_TYPE_ALU && !CType(x.ins) && !C.Start(k, x) && !C.Stop(x)
    ensures C.AluA(k, x) == k.regs[Rs1(x.ins)] && C.AluB(k, x) == ImmI(x.ins)
  {
  }

  lemma SelectOpImm(k: C.Core, x: C.In, i: Isa.Instr)
    requires C.Shape(k) && Presents(x, i) && i.OpImm? && !C.Start(k, x) && !C.Stop(x)
    ensures OpImmSelected(Abs(k), x.ins, i, AluOp(x.ins), C.AluA(k, x), C.AluB(k, x))
  {
    OpImmDecoded(x, i);
    OpImmOperation(x.ins, i);
    OpImmOperands(k, x);
  }

  lemma ShiftAmount(ins: Word)
    ensures Val(ImmI(ins)) % 32 == Rs2(ins)
  {
    Powers();
    ValSplitDivMod(ImmI(ins), 5);
    assert ImmI(ins)[..5] == ins[20..25];
  }

  /** Computing with the immediate of the encoding and with that of the instruction. */
  lemma OperandIs(op: Isa.AluOp, a: int, ins: Word, imm: int)
    requires imm == if Shifts(op) then Rs2(ins) else Isa.ImmI(Val(ins))
    ensures Isa.Compute(op, a, Val(ImmI(ins))) == Isa.Compute(op, a, Isa.Wrap(imm))
  {
    if Shifts(op) {
      ShiftAmount(ins);
      ShiftsModulo(op, a, Val(ImmI(ins)), Isa.Wrap(imm));
    } else {
      ImmIIs(ins);
      ValIsWrapped(ImmI(ins));
    }
  }

  lemma ShiftsModulo(op: Isa.AluOp, a: int, b: int, b': int)
    requires Shifts(op) && b % 32 == b' % 32
    ensures Isa.Compute(op, a, b) == Isa.Compute(op, a, b')
  {
  }

  /** The result the arithmetic unit has to deliver. */
  ghost predicate Delivers(m: Isa.Machine, i: Isa.Instr, alu: Word) {
    && (Adds(i) ==> Val(alu) == Isa.Wrap(Base(m, i) + i.imm))
    && (i.Op? || i.OpImm? ==> Val(alu) == Isa.RdValue(m, i))
  }

  lemma ComputeIs(hw: Alu.Op, op: Isa.AluOp, a: Word, b: Word)
    requires hw == HwOp(op)
    ensures Val(Alu.GateFlow(hw, a, b)) == Isa.Compute(op, Val(a), Val(b))
  {
    AluIs(op, a, b);
  }

  /** The ISA operation behind an instruction that uses the arithmetic unit, and its result. */
  predicate UsesAlu(i: Isa.Instr) { Adds(i) || i.Op? || i.OpImm? }

  function OpOf(i: Isa.Instr): Isa.AluOp
    requires UsesAlu(i)
  {
    if i.Op? then i.op else if i.OpImm? then i.op else Isa.ADD
  }

  function Wanted(m: Isa.Machine, i: Isa.Instr): int
    requires UsesAlu(i)
  {
    if Adds(i) then Isa.Wrap(Base(m, i) + i.imm) else Isa.RdValue(m, i)
  }

  /** The operation and the operands that the control logic selects are the right ones. */
  ghost predicate Selected(m: Isa.Machine, i: Isa.Instr, op: Alu.Op, a: Word, b: Word)
    requires UsesAlu(i)
  {
    op == HwOp(OpOf(i)) && Isa.Compute(OpOf(i), Val(a), Val(b)) == Wanted(m, i)
  }

  lemma AddCase(m: Isa.Machine, i: Isa.Instr, op: Alu.Op, a: Word, b: Word)
    requires AddSelected(m, i, op, a, b)
    ensures Selected(m, i, op, a, b)
  {
    ImmediateSum(Val(a), b, i.imm);
  }

  lemma OpCase(m: Isa.Machine, i: Isa.Instr, op: Alu.Op, a: Word, b: Word)
    requires OpSelected(m, i, op, a, b)
    ensures Selected(m, i, op, a, b)
  {
  }

  lemma OpImmCase(m: Isa.Machine, ins: Word, i: Isa.Instr, op: Alu.Op, a: Word, b: Word)
    requires OpImmSelected(m, ins, i, op, a, b)
    ensures Selected(m, i, op, a, b)
  {
    OperandIs(i.op, Val(a), ins, i.imm);
  }

  lemma SelectedAdd(k: C.Core, x: C.In, i: Isa.Instr, op: Alu.Op, a: Word, b: Word)
    requires C.Shape(k) && Presents(x, i) && !C.Start(k, x) && !C.Stop(x) && Adds(i)
    requires op == AluOp(x.ins) && a == C.AluA(k, x) && b == C.AluB(k, x)
    ensures Selected(Abs(k), i, op, a, b)
  {
    SelectAdd(k, x, i);
    AddCase(Abs(k), i, op, a, b);
  }

  lemma SelectedOp(k: C.Core, x: C.In, i: Isa.Instr, op: Alu.Op, a: Word, b: Word)
    requires C.Shape(k) && Presents(x, i) && !C.Start(k, x) && !C.Stop(x) && i.Op?
    requires op == AluOp(x.ins) && a == C.AluA(k, x) && b == C.AluB(k, x)
    ensures Selected(Abs(k), i, op, a, b)
  {
    SelectOp(k, x, i);
    OpCase(Abs(k), i, op, a, b);
  }

  lemma SelectedOpImm(k: C.Core, x: C.In, i: Isa.Instr, op: Alu.Op, a: Word, b: Word)
    requires C.Shape(k) && Presents(x, i) && !C.Start(k, x) && !C.Stop(x) && i.OpImm?
    requires op == AluOp(x.ins) && a == C.AluA(k, x) && b == C.AluB(k, x)
    ensures Selected(Abs(k), i, op, a, b)
  {
    SelectOpImm(k, x, i);
    OpImmCase(Abs(k), x.ins, i, op, a, b);
  }

  lemma WantedDelivers(m: Isa.Machine, i: Isa.Instr, alu: Word)
    requires UsesAlu(i) ==> Val(alu) == Wanted(m, i)
    ensures Delivers(m, i, alu)
  {
  }

  /** It does. */
  lemma AluDelivers(k: C.Core, x: C.In, i: Isa.Instr)
    requires C.Shape(k) && Presents(x, i) && !C.Start(k, x) && !C.Stop(x)
    ensures Delivers(Abs(k), i, C.AluRes(k, x))
  {
    var op, a, b := AluOp(x.ins), C.AluA(k, x), C.AluB(k, x);
    if UsesAlu(i) {
      if Adds(i) {
        SelectedAdd(k, x, i, op, a, b);
      } else if i.Op? {
        SelectedOp(k, x, i, op, a, b);
      } else {
        SelectedOpImm(k, x, i, op, a, b);
      }
      ComputeIs(op, OpOf(i), a, b);
    }
    WantedDelivers(Abs(k), i, Alu.GateFlow(op, a, b));
  }

  // ----- register write-back

  /** The load path. */
  lemma LoadResult(k: C.Core, x: C.In, i: Isa.Instr, alu: Word)
    requires i.Load? && Val(alu) == Isa.Address(Abs(k), i) && LoadSelected(x.ins, i)
    requires Isa.Address(Abs(k), i) + i.bytes <= |k.mem|
    ensures Val(C.LoadData(k, x, alu)) == Isa.RdValue(Abs(k), i)
  {
    LoadIs(k.mem, Val(alu), DmemSize(x.ins), DmemZeroEx(x.ins));
    LoadedIs(Abs(k), x.ins, i);
  }

  lemma LoadedIs(m: Isa.Machine, ins: Word, i: Isa.Instr)
    requires i.Load? && LoadSelected(ins, i)
    ensures var v := Isa.LoadBytes(m.mem, Isa.Address(m, i), Memory.Bytes(DmemSize(ins)));
      Isa.RdValue(m, i)
      == if DmemZeroEx(ins) then v else Isa.Wrap(Isa.Signed(v, Isa.Pow(8 * Memory.Bytes(DmemSize(ins)))))
  {
  }

  ghost predicate LoadSelected(ins: Word, i: Isa.Instr)
    requires i.Load?
  {
    && DmemSize(ins) in {BYTE, HALF, WORD} && Memory.Bytes(DmemSize(ins)) == i.bytes
    && DmemZeroEx(ins) == !i.signed && (!i.signed ==> DmemSize(ins) != WORD)
  }

  lemma SelectLoad(x: C.In, i: Isa.Instr)
    requires Presents(x, i) && i.Load?
    ensures LoadSelected(x.ins, i)
  {
    Legal(x, i);
    FieldsAre(x.ins);
    ControlBits(x.ins);
  }

  /** Write enable, destination and source of the register write. */
  ghost predicate WriteSelected(ins: Word, i: Isa.Instr) {
    && RfEn(ins) == Isa.WritesRd(i) && !CType(ins)
    && (Isa.WritesRd(i) ==> Rd(ins) == i.rd)
    && RfSelect(ins) == (if i.Lui? then FromImm else if i.Jal? || i.Jalr? then FromPc
                         else if i.Load? then FromMem else FromAlu)
    && (i.Lui? ==> Immediate(ins) == ImmU(ins) && i.imm == Isa.ImmU(Val(ins)))
    && DmemWr(ins) == i.Store?
  }

  lemma SelectWrite(x: C.In, i: Isa.Instr)
    requires Presents(x, i)
    ensures WriteSelected(x.ins, i)
  {
    Legal(x, i);
    FieldsAre(x.ins);
  }

  /** What is written back is what the ISA puts in rd. */
  lemma WriteBackIs(k: C.Core, x: C.In, i: Isa.Instr, alu: Word)
    requires Delivers(Abs(k), i, alu) && WriteSelected(x.ins, i) && Isa.WritesRd(i)
    requires i.Load? ==> LoadSelected(x.ins, i) && Isa.Address(Abs(k), i) + i.bytes <= |k.mem|
    requires Val(C.NextPcDefault(k, x)) == Isa.Wrap(Val(k.pc) + 4)
    ensures Val(C.RfWrData(k, x, alu)) == Isa.RdValue(Abs(k), i)
  {
    match i
    case Lui(_, _) => ImmUIs(x.ins);
    case Load(_, _, _, _, _) => LoadResult(k, x, i, alu);
    case _ =>
  }

  /** The register file after the falling edge. */
  lemma RegistersAre(k: C.Core, x: C.In, i: Isa.Instr, alu: Word)
    requires C.Valid(k) && !C.Start(k, x) && WriteSelected(x.ins, i)
    requires Isa.WritesRd(i) ==> Val(C.RfWrData(k, x, alu)) == Isa.RdValue(Abs(k), i)
    ensures Numbers(C.NegedgeWith(k, x, alu).regs) == Isa.Step(Abs(k), i).regs
    ensures C.Valid(C.NegedgeWith(k, x, alu))
  {
  }

  /** The memory after the falling edge. */
  lemma MemoryIs(k: C.Core, x: C.In, i: Isa.Instr, alu: Word)
    requires C.Shape(k) && WriteSelected(x.ins, i)
    requires i.Store? ==> Val(alu) == Isa.Address(Abs(k), i) && StoreSelected(k, x, i)
    ensures Numbers(C.NegedgeWith(k, x, alu).mem) == Isa.Step(Abs(k), i).mem
  {
    if i.Store? {
      StoreIs(k.mem, Val(alu), DmemSize(x.ins), k.regs[Rs2(x.ins)]);
    }
  }

  ghost predicate StoreSelected(k: C.Core, x: C.In, i: Isa.Instr)
    requires C.Shape(k) && i.Store?
  {
    && DmemSize(x.ins) in {BYTE, HALF, WORD} && Memory.Bytes(DmemSize(x.ins)) == i.bytes
    && Val(k.regs[Rs2(x.ins)]) == Isa.X(Abs(k), i.rs2)
  }

  lemma SelectStore(k: C.Core, x: C.In, i: Isa.Instr)
    requires C.Shape(k) && Presents(x, i) && i.Store?
    ensures StoreSelected(k, x, i)
  {
    Legal(x, i);
    FieldsAre(x.ins);
  }
}
