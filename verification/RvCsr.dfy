/** CSR instructions (csr.sv:75-136, riscv_core.sv:191-236) against chapter 6 of the RISC-V
    Unprivileged ISA: read the old value into rd, then write, set or clear. */
module RvCsr {
  import opened Bits
  import opened Decode
  import Alu
  import Csr
  import C = Core
  import Isa
  import RvRefine
  import RvTrap
  import RvUnits
  import RvValues

  /** The register at an address. */
  function Register(c: Csr.Csr, a: nat): Word
    requires Csr.KnownCsr(a)
  {
    if a == Csr.CSR_MIP then c.mip
    else if a == Csr.CSR_MIE then c.mie
    else if a == Csr.CSR_MEPC then c.mepc
    else if a == Csr.CSR_MTVEC then c.mtvec
    else if a == Csr.CSR_MCAUSE then c.mcause
    else if a == Csr.CSR_MSCRATCH then c.mscratch
    else if a == Csr.CSR_MTINST then c.mtinst
    else c.mstatus
  }

  /** The source operand: rs1, or the five bits in its place. */
  function Operand(k: C.Core, ins: Word): Word
    requires C.Shape(k)
  {
    if Funct3(ins) >= 4 then ins[15..20] + Rep(27, false) else k.regs[Rs1(ins)]
  }

  predicate PlainWrite(ins: Word) { Funct3(ins) == 1 || Funct3(ins) == 5 }
  predicate SetBits(ins: Word) { Funct3(ins) == 2 || Funct3(ins) == 6 }

  /** Write, set or clear. */
  function NewValue(ins: Word, was: Word, operand: Word): Word {
    if PlainWrite(ins) then operand else if SetBits(ins) then Or(operand, was) else And(Not(operand), was)
  }

  /** The timer and external bits of mip are read-only. */
  function Legal(a: nat, was: Word, v: Word): Word {
    if a == Csr.CSR_MIP then v[11 := was[11]][7 := was[7]] else v
  }

  /** A CSR instruction on an existing register, with no trap. */
  ghost predicate Accesses(k: C.Core, x: C.In) {
    C.Valid(k) && CType(x.ins) && Csr.KnownCsr(Csr.SysImm(x.ins)) && !C.Start(k, x)
  }

  /** {27'b1, ~zimm} is the complement of the extended immediate. */
  lemma ClearMask(z: Bits)
    requires |z| == 5
    ensures Not(z) + Rep(27, true) == Not(z + Rep(27, false))
  {
  }

  lemma Funct3Bound(ins: Word)
    ensures Funct3(ins) < 8
  {
    ValBound(ins[12..15]);
    ValBound(ins[13..16]);
  }

  /** The first operand of the arithmetic unit: complemented to clear. */
  lemma Operands(k: C.Core, x: C.In)
    requires Accesses(k, x)
    ensures C.AluA(k, x) == (if PlainWrite(x.ins) || SetBits(x.ins) then Operand(k, x.ins) else Not(Operand(k, x.ins)))
  {
    Funct3Bound(x.ins);
    if Funct3(x.ins) == 7 {
      ClearMask(x.ins[15..20]);
    }
  }

  lemma SecondOperand(k: C.Core, x: C.In)
    requires Accesses(k, x)
    ensures C.AluB(k, x) == if PlainWrite(x.ins) then Rep(32, false) else Register(k.csr, Csr.SysImm(x.ins))
    ensures AluOp(x.ins) == if PlainWrite(x.ins) then Alu.ADD else if SetBits(x.ins) then Alu.OR else Alu.AND
  {
    Funct3Bound(x.ins);
  }

  lemma Result(k: C.Core, x: C.In)
    requires Accesses(k, x)
    ensures C.AluRes(k, x) == NewValue(x.ins, Register(k.csr, Csr.SysImm(x.ins)), Operand(k, x.ins))
  {
    Operands(k, x);
    SecondOperand(k, x);
    Combine(x.ins, C.AluA(k, x), C.AluB(k, x));
  }

  lemma Combine(ins: Word, a: Word, b: Word)
    requires PlainWrite(ins) ==> b == Rep(32, false)
    ensures Alu.GateFlow(if PlainWrite(ins) then Alu.ADD else if SetBits(ins) then Alu.OR else Alu.AND, a, b)
         == if PlainWrite(ins) then a else if SetBits(ins) then Or(a, b) else And(a, b)
  {
    if PlainWrite(ins) {
      RvTrap.WithZero(Alu.ADD, a);
    } else {
      Alu.GateFlowIsDataFlow(if SetBits(ins) then Alu.OR else Alu.AND, a, b);
    }
  }

  /** The CSRs after the falling edge. */
  lemma Stored(k: C.Core, x: C.In, din: Word, b: nat)
    requires Accesses(k, x) && Csr.KnownCsr(b)
    ensures var a, c' := Csr.SysImm(x.ins), C.NegedgeWith(k, x, din).csr;
      Register(c', b) == if b == a && Rs1(x.ins) != 0 then Legal(a, Register(k.csr, a), din) else Register(k.csr, b)
  {
  }

  lemma ReadsOld(k: C.Core, x: C.In, din: Word)
    requires Accesses(k, x)
    ensures C.RfWrData(k, x, din) == Register(k.csr, Csr.SysImm(x.ins))
    ensures C.RfWrEn(k, x) <==> Rd(x.ins) != 0
  {
  }

  lemma NoStore(ins: Word)
    requires CType(ins)
    ensures !DmemWr(ins)
  {
  }

  /** The register file and the memory after the falling edge: rd gets the old value. */
  lemma Loaded(k: C.Core, x: C.In, din: Word)
    requires Accesses(k, x)
    ensures var k' := C.NegedgeWith(k, x, din);
      && k'.regs == (if Rd(x.ins) != 0 then k.regs[Rd(x.ins) := Register(k.csr, Csr.SysImm(x.ins))] else k.regs)
      && k'.mem == k.mem
  {
    ReadsOld(k, x, din);
    NoStore(x.ins);
  }

  /** A source field of 0 names x0 or the immediate 0. */
  lemma ZeroOperand(k: C.Core, ins: Word)
    requires C.Valid(k) && Rs1(ins) == 0
    ensures Operand(k, ins) == Rep(32, false)
  {
    ValZeros(5);
    ValInjective(ins[15..20], Rep(5, false));
  }

  lemma NothingToSet(ins: Word, v: Word)
    requires !PlainWrite(ins)
    ensures NewValue(ins, v, Rep(32, false)) == v
  {
  }

  /** The one case in which csr.sv skips a write that the ISA asks for. */
  predicate Skipped(c: Csr.Csr, ins: Word)
    requires Csr.KnownCsr(Csr.SysImm(ins))
  {
    var a := Csr.SysImm(ins);
    PlainWrite(ins) && Rs1(ins) == 0 && Register(c, a) != Legal(a, Register(c, a), Rep(32, false))
  }

  /** What a CSR instruction does to registers, memory and the CSR at b. */
  ghost predicate AccessDone(k: C.Core, x: C.In, k': C.Core, b: nat)
    requires Accesses(k, x) && Csr.KnownCsr(b)
  {
    var a := Csr.SysImm(x.ins);
    && k'.regs == (if Rd(x.ins) != 0 then k.regs[Rd(x.ins) := Register(k.csr, a)] else k.regs)
    && k'.mem == k.mem
    && (b != a ==> Register(k'.csr, b) == Register(k.csr, b))
    && (Register(k'.csr, a) == Legal(a, Register(k.csr, a), NewValue(x.ins, Register(k.csr, a), Operand(k, x.ins)))
        <==> !Skipped(k.csr, x.ins))
  }

  /** Keeping the old value is right unless the write is skipped. */
  lemma KeptIsRight(k: C.Core, ins: Word)
    requires C.Valid(k) && Csr.KnownCsr(Csr.SysImm(ins)) && Rs1(ins) == 0
    ensures var a := Csr.SysImm(ins);
      Register(k.csr, a) == Legal(a, Register(k.csr, a), NewValue(ins, Register(k.csr, a), Operand(k, ins)))
      <==> !Skipped(k.csr, ins)
  {
    ZeroOperand(k, ins);
    if !PlainWrite(ins) {
      NothingToSet(ins, Register(k.csr, Csr.SysImm(ins)));
    }
  }

  lemma EdgeAccess(k: C.Core, x: C.In, b: nat)
    requires Accesses(k, x) && Csr.KnownCsr(b)
    ensures AccessDone(k, x, C.Negedge(k, x), b)
  {
    var din := C.AluRes(k, x);
    Result(k, x);
    Loaded(k, x, din);
    Stored(k, x, din, Csr.SysImm(x.ins));
    Stored(k, x, din, b);
    if Rs1(x.ins) == 0 {
      KeptIsRight(k, x.ins);
    }
  }

  // ----- the rising edge

  /** An interrupt line that mstatus and mie let through. */
  predicate Pending(mstatus: Word, mie: Word, irq: Csr.Irq) {
    (mstatus[Csr.MIE] || mstatus[Csr.MPIE]) && ((mie[11] && irq.ex) || (mie[3] && irq.sw) || (mie[7] && irq.timer))
  }

  /** mstatus or mie as the instruction leaves it. */
  function After(k: C.Core, ins: Word, b: nat): Word
    requires C.Shape(k) && Csr.KnownCsr(Csr.SysImm(ins)) && Csr.KnownCsr(b)
  {
    if b == Csr.SysImm(ins) && Rs1(ins) != 0 then NewValue(ins, Register(k.csr, b), Operand(k, ins))
    else Register(k.csr, b)
  }

  /** The values that the instruction leaves in mstatus and mie let an interrupt through, and no trap was
      requested in the cycle before. */
  predicate Enables(k: C.Core, x: C.In)
    requires C.Shape(k) && Csr.KnownCsr(Csr.SysImm(x.ins))
  {
    !k.csr.started && Pending(After(k, x.ins, Csr.CSR_MSTATUS), After(k, x.ins, Csr.CSR_MIE), x.irq)
  }

  lemma RisingSignals(k: C.Core, x: C.In)
    requires C.Shape(k) && CType(x.ins) && Csr.KnownCsr(Csr.SysImm(x.ins)) && !k.pc[0]
    ensures C.Start(k, x) <==> Csr.Interrupt(k.csr, x.irq, x.ins) && !k.csr.started
    ensures !C.Stop(x) && !C.BranchTaken(k, x) && !PcSel(x.ins) && Is32Bit(x.ins)
  {
    RvValues.Is32BitIff(x.ins);
  }

  lemma Rises(k: C.Core, x: C.In, alu: Word)
    requires C.Shape(k) && CType(x.ins) && Csr.KnownCsr(Csr.SysImm(x.ins)) && !k.pc[0] && k.imemReq
    ensures var k' := C.PosedgeWith(k, x, alu);
      && k'.regs == k.regs && k'.mem == k.mem && k'.csr == k.csr.(started := k'.csr.started)
      && (!k.csr.started ==> (k'.csr.started <==> C.Start(k, x)))
      && k'.pc == if C.Start(k, x) then [false] + alu[1..] else C.NextPcDefault(k, x)
  {
    RisingSignals(k, x);
  }

  lemma SameRegisters(c: Csr.Csr, c': Csr.Csr, a: nat)
    requires Csr.KnownCsr(a) && c' == c.(started := c'.started)
    ensures Register(c', a) == Register(c, a)
  {
  }

  lemma RiseKeeps(k: C.Core, x: C.In, k1: C.Core, k': C.Core, b: nat)
    requires Accesses(k, x) && Csr.KnownCsr(b) && AccessDone(k, x, k1, b)
    requires k'.regs == k1.regs && k'.mem == k1.mem && k'.csr == k1.csr.(started := k'.csr.started)
    ensures AccessDone(k, x, k', b)
  {
    SameRegisters(k1.csr, k'.csr, b);
    SameRegisters(k1.csr, k'.csr, Csr.SysImm(x.ins));
  }

  lemma StatusAfter(k: C.Core, x: C.In, k1: C.Core)
    requires Accesses(k, x) && k1 == C.Negedge(k, x)
    ensures k1.csr.mstatus == After(k, x.ins, Csr.CSR_MSTATUS) && k1.csr.mie == After(k, x.ins, Csr.CSR_MIE)
    ensures k1.csr.started == k.csr.started
  {
    Result(k, x);
    Stored(k, x, C.AluRes(k, x), Csr.CSR_MSTATUS);
    Stored(k, x, C.AluRes(k, x), Csr.CSR_MIE);
  }

  lemma LateStart(k: C.Core, x: C.In)
    requires C.Shape(k) && CType(x.ins) && Csr.KnownCsr(Csr.SysImm(x.ins)) && !k.pc[0]
    ensures C.Start(k, x) <==> Pending(k.csr.mstatus, k.csr.mie, x.irq) && !k.csr.started
  {
    RisingSignals(k, x);
  }

  /** A trap starts between the edges of a CSR instruction if and only if the write enables it. */
  lemma EnablesIs(k: C.Core, x: C.In)
    requires Accesses(k, x) && !k.pc[0]
    ensures C.Start(C.Negedge(k, x), x) <==> Enables(k, x)
  {
    var k1 := C.Negedge(k, x);
    StatusAfter(k, x, k1);
    LateStart(k1, x);
  }

  /** Only a plain write or a set, to mstatus or mie, with a source other than 0, can enable anything. */
  lemma Enablers(k: C.Core, x: C.In)
    requires Accesses(k, x) && !k.pc[0] && Enables(k, x)
    ensures Rs1(x.ins) != 0 && (PlainWrite(x.ins) || SetBits(x.ins))
    ensures Csr.SysImm(x.ins) == Csr.CSR_MSTATUS || Csr.SysImm(x.ins) == Csr.CSR_MIE
  {
    LateStart(k, x);
  }

  lemma CycleDone(k: C.Core, x: C.In, k1: C.Core, k': C.Core, b: nat)
    requires Accesses(k, x) && k.imemReq && !k.pc[0] && Csr.KnownCsr(b)
    requires k1 == C.Negedge(k, x) && k' == C.Posedge(k1, x)
    ensures AccessDone(k, x, k', b)
  {
    EdgeAccess(k, x, b);
    Rises(k1, x, C.AluRes(k1, x));
    RiseKeeps(k, x, k1, k', b);
  }

  lemma CsrIs32Bit(ins: Word)
    requires CType(ins)
    ensures Is32Bit(ins)
  {
    RvValues.Is32BitIff(ins);
  }

  // ----- where a trap that starts on the rising edge goes

  /** The exception code of the interrupt that wins. */
  function Code(mie: Word, irq: Csr.Irq): nat {
    if mie[11] && irq.ex then 11 else if mie[3] && irq.sw then 3 else 7
  }

  /** Its distance from the trap base. */
  function Vector(mtvec: Word, code: nat): Word { if mtvec[0] then ToBits(32, 4 * code) else Rep(32, false) }

  lemma SmallWord(n: nat, v: nat, q: nat)
    requires v == 4 * q && v < Pow2(n)
    ensures Val(ToBits(n, v)) == v && v % 4 == 0
  {
    ToBitsVal(n, v);
  }

  lemma VectorIs(mtvec: Word, code: nat)
    requires code < 16
    ensures Val(Vector(mtvec, code)) == if mtvec[0] then 4 * code else 0
    ensures Val(Vector(mtvec, code)) % 4 == 0
  {
    if mtvec[0] {
      RvValues.Powers();
      SmallWord(32, 4 * code, code);
    } else {
      ValZeros(32);
    }
  }

  lemma {:induction false} ToBitsPrefix(m: nat, n: nat, v: int)
    requires m <= n
    ensures ToBits(n, v)[..m] == ToBits(m, v)
  {
    if m > 0 {
      ToBitsPrefix(m - 1, n - 1, v / 2);
    }
  }

  lemma TimesFour(n: nat, v: int)
    ensures [false, false] + ToBits(n, v) == ToBits(n + 2, 4 * v)
  {
    assert ToBits(n + 1, 2 * v) == [false] + ToBits(n, v);
    assert ToBits(n + 2, 4 * v) == [false] + ToBits(n + 1, 2 * v);
  }

  lemma OffsetIs(c: Csr.Csr, code: nat)
    ensures Csr.Offset(c, ToBits(31, code) + [true]) == Vector(c.mtvec, code)
  {
    ToBitsPrefix(30, 31, code);
    TimesFour(30, code);
    assert (ToBits(31, code) + [true])[0..30] == ToBits(31, code)[..30];
  }

  lemma CauseIs(k: C.Core, x: C.In)
    requires C.Shape(k) && CType(x.ins) && Csr.Interrupt(k.csr, x.irq, x.ins)
    ensures Csr.Cause(k.csr, x.irq, k.imemReq, k.pc, x.ins) == ToBits(31, Code(k.csr.mie, x.irq)) + [true]
  {
  }

  /** The operands between the edges: trap base and offset. */
  lemma LateOperands(k: C.Core, x: C.In, off: Word)
    requires C.Shape(k) && CType(x.ins) && Csr.KnownCsr(Csr.SysImm(x.ins)) && !k.pc[0] && C.Start(k, x)
    requires off == Vector(k.csr.mtvec, Code(k.csr.mie, x.irq))
    ensures C.AluA(k, x) == RvTrap.TrapBase(k.csr) && C.AluB(k, x) == off
  {
    RisingSignals(k, x);
    CauseIs(k, x);
    OffsetIs(k.csr, Code(k.csr.mie, x.irq));
  }

  /** The arithmetic unit adds them for a plain write; for a set it is still or-ing. */
  function Landing(ins: Word, base: Word, off: Word): nat {
    if PlainWrite(ins) then Isa.Wrap(Val(base) + Val(off)) else Val(Or(base, off))
  }

  lemma LateAdd(base: Word, off: Word, alu: Word)
    requires alu == Alu.GateFlow(Alu.ADD, base, off)
    ensures Val(alu) == Isa.Wrap(Val(base) + Val(off))
  {
    RvUnits.AluIs(Isa.ADD, base, off);
  }

  lemma LateOr(base: Word, off: Word, alu: Word)
    requires alu == Alu.GateFlow(Alu.OR, base, off)
    ensures alu == Or(base, off)
  {
    Alu.GateFlowIsDataFlow(Alu.OR, base, off);
  }

  /** What the unit delivers between the edges. */
  ghost predicate Delivers(ins: Word, base: Word, off: Word, alu: Word) {
    if PlainWrite(ins) then Val(alu) == Isa.Wrap(Val(base) + Val(off)) else alu == Or(base, off)
  }

  lemma LateResult(k: C.Core, x: C.In, base: Word, off: Word)
    requires C.Shape(k) && C.AluA(k, x) == base && C.AluB(k, x) == off
    requires AluOp(x.ins) == if PlainWrite(x.ins) then Alu.ADD else Alu.OR
    ensures Delivers(x.ins, base, off, C.AluRes(k, x))
  {
    if PlainWrite(x.ins) {
      LateAdd(base, off, C.AluRes(k, x));
    } else {
      LateOr(base, off, C.AluRes(k, x));
    }
  }

  lemma SumAligned(base: Word, off: Word, alu: Word)
    requires Val(off) % 4 == 0 && !base[0] && !base[1] && Val(alu) == Isa.Wrap(Val(base) + Val(off))
    ensures !alu[0]
  {
    RvValues.LowBits(base);
    RvValues.LowBits(alu);
  }

  lemma OrAligned(base: Word, off: Word)
    requires Val(off) % 4 == 0 && !base[0]
    ensures !Or(base, off)[0]
  {
    RvValues.LowBits(off);
  }

  /** The rising edge clears bit 0, which is clear. */
  lemma Even(alu: Word)
    requires !alu[0]
    ensures [false] + alu[1..] == alu
  {
  }

  lemma LateSum(ins: Word, base: Word, off: Word, alu: Word)
    requires Val(off) % 4 == 0 && !base[0] && !base[1] && Delivers(ins, base, off, alu)
    ensures Val([false] + alu[1..]) == Landing(ins, base, off)
  {
    if PlainWrite(ins) {
      SumAligned(base, off, alu);
    } else {
      OrAligned(base, off);
    }
    Even(alu);
  }

  lemma OpIs(ins: Word)
    requires CType(ins) && (PlainWrite(ins) || SetBits(ins))
    ensures AluOp(ins) == if PlainWrite(ins) then Alu.ADD else Alu.OR
  {
    Funct3Bound(ins);
  }

  /** The trap starts, but too late: control goes to the handler, and the falling edge, where mepc, mcause,
      mtinst and the interrupt stack of mstatus would have been written, is over. */
  ghost predicate EntersLate(k: C.Core, x: C.In, k': C.Core)
    requires Accesses(k, x)
  {
    && k'.csr.started
    && Val(k'.pc) == Landing(x.ins, RvTrap.TrapBase(k.csr),
                             Vector(k.csr.mtvec, Code(After(k, x.ins, Csr.CSR_MIE), x.irq)))
    && k'.csr.mepc == k.csr.mepc && k'.csr.mcause == k.csr.mcause && k'.csr.mtinst == k.csr.mtinst
    && k'.csr.mstatus == After(k, x.ins, Csr.CSR_MSTATUS)
  }

  /** The other registers on the falling edge. */
  lemma OthersStay(k: C.Core, x: C.In, k1: C.Core)
    requires Accesses(k, x) && !k.pc[0] && Enables(k, x) && k1 == C.Negedge(k, x)
    ensures k1.csr.mepc == k.csr.mepc && k1.csr.mcause == k.csr.mcause && k1.csr.mtinst == k.csr.mtinst
    ensures k1.csr.mtvec == k.csr.mtvec && k1.pc == k.pc && k1.imemReq == k.imemReq
  {
    Enablers(k, x);
    Stored(k, x, C.AluRes(k, x), Csr.CSR_MEPC);
    Stored(k, x, C.AluRes(k, x), Csr.CSR_MCAUSE);
    Stored(k, x, C.AluRes(k, x), Csr.CSR_MTINST);
    Stored(k, x, C.AluRes(k, x), Csr.CSR_MTVEC);
  }

  lemma LateDelivers(k: C.Core, x: C.In, off: Word)
    requires C.Shape(k) && CType(x.ins) && Csr.KnownCsr(Csr.SysImm(x.ins)) && !k.pc[0] && C.Start(k, x)
    requires PlainWrite(x.ins) || SetBits(x.ins)
    requires off == Vector(k.csr.mtvec, Code(k.csr.mie, x.irq))
    ensures Delivers(x.ins, RvTrap.TrapBase(k.csr), off, C.AluRes(k, x))
  {
    LateOperands(k, x, off);
    OpIs(x.ins);
    LateResult(k, x, RvTrap.TrapBase(k.csr), off);
  }

  lemma LatePc(k: C.Core, x: C.In, off: Word, alu: Word)
    requires C.Shape(k) && CType(x.ins) && Csr.KnownCsr(Csr.SysImm(x.ins)) && !k.pc[0] && C.Start(k, x) && k.imemReq
    requires Delivers(x.ins, RvTrap.TrapBase(k.csr), off, alu) && Val(off) % 4 == 0
    ensures Val(C.PosedgeWith(k, x, alu).pc) == Landing(x.ins, RvTrap.TrapBase(k.csr), off)
  {
    LateSum(x.ins, RvTrap.TrapBase(k.csr), off, alu);
    Rises(k, x, alu);
  }

  lemma LateEntry(k: C.Core, x: C.In, k1: C.Core, k': C.Core)
    requires Accesses(k, x) && k.imemReq && !k.pc[0] && Enables(k, x)
    requires k1 == C.Negedge(k, x) && k' == C.Posedge(k1, x)
    ensures EntersLate(k, x, k')
  {
    EnablesIs(k, x);
    Enablers(k, x);
    StatusAfter(k, x, k1);
    OthersStay(k, x, k1);
    var off := Vector(k1.csr.mtvec, Code(k1.csr.mie, x.irq));
    VectorIs(k1.csr.mtvec, Code(k1.csr.mie, x.irq));
    LateDelivers(k1, x, off);
    LatePc(k1, x, off, C.AluRes(k1, x));
    Rises(k1, x, C.AluRes(k1, x));
  }

  /** Control after the instruction. */
  ghost predicate Continues(k: C.Core, x: C.In, k': C.Core)
    requires Accesses(k, x)
  {
    if Enables(k, x) then EntersLate(k, x, k')
    else k'.pc == C.NextPcDefault(k, x) && (k'.csr.started ==> k.csr.started)
  }

  lemma CycleContinues(k: C.Core, x: C.In, k1: C.Core, k': C.Core)
    requires Accesses(k, x) && k.imemReq && !k.pc[0]
    requires k1 == C.Negedge(k, x) && k' == C.Posedge(k1, x)
    ensures Continues(k, x, k')
  {
    EnablesIs(k, x);
    if Enables(k, x) {
      LateEntry(k, x, k1, k');
    } else {
      StatusAfter(k, x, k1);
      Rises(k1, x, C.AluRes(k1, x));
    }
  }

  lemma NextIsBy4(k: C.Core, x: C.In)
    requires Accesses(k, x) && k.imemReq
    ensures Val(C.NextPcDefault(k, x)) == Isa.Wrap(Val(k.pc) + 4)
  {
    CsrIs32Bit(x.ins);
    RvRefine.NextPcDefaultIs(k, x);
  }

  /** A CSR instruction, one whole cycle.  It reads and writes its register as the ISA says, leaves
      the others alone, if and only if it is not a CSRRW from x0 or a CSRRWI of 0 that would have
      cleared something: wr_en takes the "no write when rs1 is x0" of CSRRS and CSRRC for all
      six.  The program goes on at the next instruction, if and only if the write does not itself
      enable a pending interrupt: that one is entered with nothing saved. */
  lemma CsrAccess(k: C.Core, x: C.In, k': C.Core, b: nat)
    requires Accesses(k, x) && k.imemReq && !k.pc[0] && Csr.KnownCsr(b) && k' == C.Cycle(k, x)
    ensures AccessDone(k, x, k', b) && Continues(k, x, k')
    ensures Val(C.NextPcDefault(k, x)) == Isa.Wrap(Val(k.pc) + 4)
  {
    var k1 := C.Negedge(k, x);
    CycleDone(k, x, k1, k', b);
    CycleContinues(k, x, k1, k');
    NextIsBy4(k, x);
  }

  /** With a zero source field no register changes. */
  lemma NothingWritten(k: C.Core, x: C.In, k': C.Core, b: nat)
    requires Accesses(k, x) && k.imemReq && !k.pc[0] && Rs1(x.ins) == 0 && Csr.KnownCsr(b) && k' == C.Cycle(k, x)
    ensures Register(k'.csr, b) == Register(k.csr, b)
  {
    var k1 := C.Negedge(k, x);
    Stored(k, x, C.AluRes(k, x), b);
    Rises(k1, x, C.AluRes(k1, x));
    SameRegisters(k1.csr, k'.csr, b);
  }

  /** The departure is real: csrrw x0, mscratch, x0 leaves a mscratch of 1 as it is. */
  lemma SkippedExample(k: C.Core, x: C.In, k': C.Core)
    requires C.Valid(k) && k.imemReq && !k.pc[0] && x.irq == Csr.Irq(false, false, false)
    requires Val(x.ins) == 0x34001073 && Val(k.csr.mscratch) == 1 && k' == C.Cycle(k, x)
    ensures Accesses(k, x) && Csr.SysImm(x.ins) == Csr.CSR_MSCRATCH
    ensures Skipped(k.csr, x.ins) && Operand(k, x.ins) == Rep(32, false) && Val(k'.csr.mscratch) == 1
  {
    ScratchFields(x.ins);
    ScratchAccess(k, x);
    ScratchSkips(k, x, k');
  }

  lemma ScratchSkips(k: C.Core, x: C.In, k': C.Core)
    requires Accesses(k, x) && k.imemReq && !k.pc[0] && k' == C.Cycle(k, x)
    requires PlainWrite(x.ins) && Rs1(x.ins) == 0 && Csr.SysImm(x.ins) == Csr.CSR_MSCRATCH && Val(k.csr.mscratch) == 1
    ensures Skipped(k.csr, x.ins) && Operand(k, x.ins) == Rep(32, false) && Val(k'.csr.mscratch) == 1
  {
    ZeroOperand(k, x.ins);
    SkipsOne(k.csr, x.ins);
    NothingWritten(k, x, k', Csr.CSR_MSCRATCH);
  }

  lemma SkipsOne(c: Csr.Csr, ins: Word)
    requires PlainWrite(ins) && Rs1(ins) == 0 && Csr.SysImm(ins) == Csr.CSR_MSCRATCH && Val(c.mscratch) == 1
    ensures Skipped(c, ins)
  {
    ValZeros(32);
    assert Register(c, Csr.CSR_MSCRATCH) == c.mscratch != Rep(32, false);
  }

  lemma ScratchAccess(k: C.Core, x: C.In)
    requires C.Valid(k) && k.imemReq && !k.pc[0] && x.irq == Csr.Irq(false, false, false)
    requires Opcode(x.ins) == SYSTEM && Funct3(x.ins) == 1 && Csr.SysImm(x.ins) == Csr.CSR_MSCRATCH
    ensures Accesses(k, x)
  {
  }

  lemma ScratchFields(ins: Word)
    requires Val(ins) == 0x34001073
    ensures Opcode(ins) == SYSTEM && Funct3(ins) == 1 && Csr.SysImm(ins) == Csr.CSR_MSCRATCH && Rs1(ins) == 0
  {
    RvValues.Powers();
    RvValues.Is32BitIff(ins);
    RvValues.FieldsAre(ins);
    RvValues.Slice(ins, 20, 12);
    assert IType(ins);
    assert ImmI(ins)[0..12] == ins[20..32];
  }

  // ----- a late trap by example

  lemma {:induction false} OrAndSum(a: Bits, b: Bits)
    requires |a| == |b|
    ensures Val(Or(a, b)) + Val(And(a, b)) == Val(a) + Val(b)
  {
    if a != [] {
      OrAndSum(a[1..], b[1..]);
      assert Or(a, b)[1..] == Or(a[1..], b[1..]) && And(a, b)[1..] == And(a[1..], b[1..]);
    }
  }

  /** A late trap reaches its vector if and only if the instruction was a plain write or base and offset
      have no bit in common. */
  lemma LandsOnVector(ins: Word, base: Word, off: Word)
    ensures Landing(ins, base, off) == Isa.Wrap(Val(base) + Val(off))
       <==> PlainWrite(ins) || And(base, off) == Rep(32, false)
  {
    OrAndSum(base, off);
    Collides(Or(base, off), And(base, off));
  }

  lemma Collides(o: Word, a: Word)
    ensures Val(o) == Isa.Wrap(Val(o) + Val(a)) <==> a == Rep(32, false)
  {
    RvValues.ValIsWrapped(o);
    RvValues.ValIsWrapped(a);
    WrapsTo(Val(o), Val(a));
    ZeroIff(a);
  }

  lemma WrapsTo(x: int, y: int)
    requires 0 <= x < Isa.XMAX && 0 <= y < Isa.XMAX
    ensures Isa.Wrap(x + y) == x <==> y == 0
  {
  }

  lemma ZeroIff(w: Word)
    ensures Val(w) == 0 <==> w == Rep(32, false)
  {
    ValZeros(32);
    if Val(w) == 0 {
      ValInjective(w, Rep(32, false));
    }
  }

  /** Without vectoring both land on the base. */
  lemma LandsOnBase(ins: Word, base: Word, pc: Word)
    requires !PlainWrite(ins) && Val(pc) == Landing(ins, base, Rep(32, false))
    ensures pc == base
  {
    assert Or(base, Rep(32, false)) == base;
    ValInjective(pc, base);
  }

  lemma StatusEnters(k: C.Core, x: C.In, k': C.Core)
    requires C.Valid(k) && k.imemReq && !k.pc[0] && !k.csr.started
    requires k.csr.mstatus == Rep(32, false) && k.csr.mie[11] && x.irq.ex
    requires Val(x.ins) == 0x30046073 && k' == C.Cycle(k, x)
    ensures Accesses(k, x) && Enables(k, x) && !PlainWrite(x.ins) && EntersLate(k, x, k')
    ensures After(k, x.ins, Csr.CSR_MIE)[11]
  {
    StatusFields(x.ins);
    StatusAccess(k, x);
    StatusEnables(k, x);
    CycleContinues(k, x, C.Negedge(k, x), k');
  }

  /** The departure is real: csrrsi x0, mstatus, 8 with the external interrupt pending and enabled in mie
      jumps to the handler and leaves mepc as it was. */
  lemma LateExample(k: C.Core, x: C.In, k': C.Core)
    requires C.Valid(k) && k.imemReq && !k.pc[0] && !k.csr.started && !k.csr.mtvec[0]
    requires k.csr.mstatus == Rep(32, false) && k.csr.mie[11] && x.irq.ex
    requires Val(x.ins) == 0x30046073 && k' == C.Cycle(k, x)
    ensures Accesses(k, x) && Enables(k, x)
    ensures k'.pc == RvTrap.TrapBase(k.csr) && k'.csr.started && k'.csr.mepc == k.csr.mepc
  {
    StatusEnters(k, x, k');
    LandsOnBase(x.ins, RvTrap.TrapBase(k.csr), k'.pc);
  }

  lemma BitTwo(off: Word)
    requires Val(off) == 44
    ensures off[2]
  {
    RvValues.Powers();
    ValSplitDivMod(off, 3);
    ValSplitDivMod(off[..3], 2);
  }

  /** Control is not at the vector of interrupt number code. */
  ghost predicate Misses(c: Csr.Csr, pc: Word, code: nat) { Val(pc) != Isa.Wrap(Val(RvTrap.TrapBase(c)) + 4 * code) }

  /** With a vectored base that has bit 2 set, as the one of the reset has, the same instruction does not
      even reach the vector. */
  lemma MissedVectorExample(k: C.Core, x: C.In, k': C.Core)
    requires C.Valid(k) && k.imemReq && !k.pc[0] && !k.csr.started && k.csr.mtvec[0] && k.csr.mtvec[2]
    requires k.csr.mstatus == Rep(32, false) && k.csr.mie[11] && x.irq.ex
    requires Val(x.ins) == 0x30046073 && k' == C.Cycle(k, x)
    ensures Misses(k.csr, k'.pc, 11)
  {
    StatusEnters(k, x, k');
    LateMisses(k.csr, x, After(k, x.ins, Csr.CSR_MIE), k'.pc);
  }

  lemma LateMisses(c: Csr.Csr, x: C.In, mie: Word, pc: Word)
    requires c.mtvec[0] && c.mtvec[2] && mie[11] && x.irq.ex && !PlainWrite(x.ins)
    requires Val(pc) == Landing(x.ins, RvTrap.TrapBase(c), Vector(c.mtvec, Code(mie, x.irq)))
    ensures Misses(c, pc, 11)
  {
    var off := ExternalVector(c.mtvec, mie, x.irq);
    MissesVector(x.ins, RvTrap.TrapBase(c), off, pc);
  }

  lemma ExternalVector(mtvec: Word, mie: Word, irq: Csr.Irq) returns (off: Word)
    requires mtvec[0] && mie[11] && irq.ex
    ensures off == Vector(mtvec, Code(mie, irq)) && Val(off) == 44
  {
    off := Vector(mtvec, Code(mie, irq));
    VectorIs(mtvec, Code(mie, irq));
  }

  lemma MissesVector(ins: Word, base: Word, off: Word, pc: Word)
    requires !PlainWrite(ins) && base[2] && Val(off) == 44 && Val(pc) == Landing(ins, base, off)
    ensures Val(pc) != Isa.Wrap(Val(base) + 44)
  {
    BitTwo(off);
    assert And(base, off)[2];
    LandsOnVector(ins, base, off);
  }

  lemma StatusAccess(k: C.Core, x: C.In)
    requires C.Valid(k) && k.imemReq && !k.pc[0] && k.csr.mstatus == Rep(32, false)
    requires Opcode(x.ins) == SYSTEM && Funct3(x.ins) == 6 && Csr.SysImm(x.ins) == Csr.CSR_MSTATUS
    ensures Accesses(k, x)
  {
  }

  lemma BitThree(z: Bits)
    requires |z| == 5 && Val(z) == 8
    ensures z[3]
  {
    RvValues.Powers();
    ValSplitDivMod(z, 3);
    RvValues.LowBits(z[3..]);
  }

  lemma StatusEnables(k: C.Core, x: C.In)
    requires Accesses(k, x) && !k.csr.started && k.csr.mie[11] && x.irq.ex
    requires Funct3(x.ins) == 6 && Rs1(x.ins) == 8 && Csr.SysImm(x.ins) == Csr.CSR_MSTATUS
    ensures Enables(k, x)
  {
    BitThree(x.ins[15..20]);
    assert Operand(k, x.ins)[3];
  }

  lemma StatusFields(ins: Word)
    requires Val(ins) == 0x30046073
    ensures Opcode(ins) == SYSTEM && Funct3(ins) == 6 && Csr.SysImm(ins) == Csr.CSR_MSTATUS && Rs1(ins) == 8
  {
    RvValues.Powers();
    RvValues.Is32BitIff(ins);
    RvValues.FieldsAre(ins);
    RvValues.Slice(ins, 20, 12);
    assert IType(ins);
    assert ImmI(ins)[0..12] == ins[20..32];
  }
}
