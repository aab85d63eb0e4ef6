/** The refinement theorem for one cycle and for whole programs, and the one place where the
    two-edge design departs from the ISA. */
module RvMain {
  import opened Bits
  import opened Decode
  import opened RvValues
  import opened RvUnits
  import opened RvRefine
  import Csr
  import C = Core
  import Isa

  /** rs1 is read again on the rising edge, after rd has been written: a JALR whose rd is its own
      rs1 jumps relative to the link address instead.  The hazard is real when the two targets
      differ. */
  predicate JalrHazard(m: Isa.Machine, i: Isa.Instr) {
    && i.Jalr? && i.rd == i.rs1 && 0 < i.rd < |m.regs|
    && Isa.JalrTarget(Isa.X(m, i.rs1), i.imm) != Isa.JalrTarget(Isa.Wrap(m.pc + 4), i.imm)
  }

  /** The machine between the two edges: registers and memory written, PC not yet. */
  function Between(m: Isa.Machine, i: Isa.Instr): Isa.Machine {
    Isa.Step(m, i).(pc := m.pc)
  }

  /** Looking up the next PC after the write gives the same answer exactly when there is no
      hazard. */
  lemma SecondLook(m: Isa.Machine, i: Isa.Instr)
    ensures Isa.NextPc(Between(m, i), i) == Isa.NextPc(m, i) <==> !JalrHazard(m, i)
  {
  }

  lemma Halved(h: int)
    ensures h * 2 % 2 == 0
  {
  }

  lemma TargetEven(base: int, imm: int)
    ensures Isa.JalrTarget(base, imm) % 2 == 0
  {
    Halved(Isa.Wrap(base + imm) / 2);
  }

  lemma WrapEven(x: int)
    requires x % 2 == 0
    ensures Isa.Wrap(x) % 2 == 0
  {
  }

  lemma SignedEven(h: int, m: nat)
    requires m % 2 == 0
    ensures Isa.Signed(2 * h, 2 * m) % 2 == 0
  {
  }

  lemma EvenImmJ(w: nat)
    ensures Isa.ImmJ(w) % 2 == 0
  {
    SignedEven(Isa.Bits(w, 0x20_0000, 0x400) + 0x400 * Isa.Bits(w, 0x10_0000, 2) + 0x800 * Isa.Bits(w, 0x1000, 0x100)
               + 0x8_0000 * Isa.Bits(w, 0x8000_0000, 2), 0x10_0000);
  }

  lemma EvenImmB(w: nat)
    ensures Isa.ImmB(w) % 2 == 0
  {
    SignedEven(Isa.Bits(w, 0x100, 0x10) + 0x10 * Isa.Bits(w, 0x200_0000, 0x40) + 0x400 * Isa.Bits(w, 0x80, 2)
               + 0x800 * Isa.Bits(w, 0x8000_0000, 2), 0x1000);
  }

  /** Jump and branch offsets are even. */
  lemma EvenOffsets(w: nat, i: Isa.Instr)
    requires Isa.Decode(w) == Isa.Some(i) && (i.Jal? || i.Branch?)
    ensures i.imm % 2 == 0
  {
    EvenImmJ(w);
    EvenImmB(w);
  }

  /** So every next PC is even. */
  lemma NextIsEven(m: Isa.Machine, i: Isa.Instr)
    requires m.pc % 4 == 0 && (i.Jal? || i.Branch? ==> i.imm % 2 == 0)
    ensures Isa.NextPc(m, i) % 2 == 0
  {
    Halving(m.pc);
    if i.Jalr? {
      TargetEven(Isa.X(m, i.rs1), i.imm);
    } else {
      OffsetEven(m.pc, if i.Jal? || i.Branch? then i.imm else 4);
      OffsetEven(m.pc, 4);
    }
  }

  lemma Halving(pc: int)
    requires pc % 4 == 0
    ensures pc % 2 == 0
  {
    Halved(pc / 4 * 2);
  }

  lemma OffsetEven(pc: int, offset: int)
    requires pc % 2 == 0 && offset % 2 == 0
    ensures Isa.Wrap(pc + offset) % 2 == 0
  {
    WrapEven(pc + offset);
  }

  lemma BothLooksEven(m: Isa.Machine, w: nat, i: Isa.Instr)
    requires m.pc % 4 == 0 && Isa.Decode(w) == Isa.Some(i)
    ensures Isa.NextPc(m, i) % 2 == 0 && Isa.NextPc(Between(m, i), i) % 2 == 0
  {
    if i.Jal? || i.Branch? {
      EvenOffsets(w, i);
    }
    NextIsEven(m, i);
    NextIsEven(Between(m, i), i);
  }

  /** The falling edge leaves the CSRs alone. */
  lemma CsrKept(k: C.Core, x: C.In, alu: Word)
    requires !C.Start(k, x) && !C.Stop(x) && !Csr.WrEn(x.ins)
    ensures Csr.Negedge(k.csr, x.irq, k.imemReq, k.pc, x.ins, alu) == k.csr
  {
  }

  // ----- the next PC

  ghost predicate PcSelected(ins: Word, i: Isa.Instr) {
    && BType(ins) == i.Branch? && PcSel(ins) == (i.Jal? || i.Jalr?)
    && (i.Branch? ==> Isa.DecodeCmp(Funct3(ins)) == Isa.Some(i.cmp) && Rs1(ins) == i.rs1 && Rs2(ins) == i.rs2)
  }

  lemma SelectPc(x: C.In, i: Isa.Instr)
    requires Presents(x, i)
    ensures PcSelected(x.ins, i)
  {
    Legal(x, i);
    FieldsAre(x.ins);
  }

  lemma TakenIs(k: C.Core, x: C.In, i: Isa.Instr)
    requires C.Shape(k) && PcSelected(x.ins, i)
    ensures C.BranchTaken(k, x) <==> i.Branch? && Isa.Holds(i.cmp, Isa.X(Abs(k), i.rs1), Isa.X(Abs(k), i.rs2))
  {
    if i.Branch? {
      BranchIs(i.cmp, Funct3(x.ins), k.regs[Rs1(x.ins)], k.regs[Rs2(x.ins)]);
    }
  }

  lemma NextPcIs(k: C.Core, x: C.In, i: Isa.Instr, alu: Word)
    requires C.Shape(k) && PcSelected(x.ins, i) && Delivers(Abs(k), i, alu) && !C.Start(k, x) && !C.Stop(x)
    requires Val(C.NextPcDefault(k, x)) == Isa.Wrap(Val(k.pc) + 4)
    requires Isa.NextPc(Abs(k), i) % 2 == 0
    ensures Val(C.NextPc(k, x, alu)) == Isa.NextPc(Abs(k), i)
  {
    JumpsWhen(k, x, i);
    JumpIs(Abs(k), i, alu, C.PcJump(k, x));
    NextPcFrom(k, x, alu);
  }

  lemma NextPcFrom(k: C.Core, x: C.In, alu: Word)
    requires C.Shape(k)
    ensures Val(C.NextPc(k, x, alu)) == if C.PcJump(k, x) then Val(alu) / 2 * 2 else Val(C.NextPcDefault(k, x))
  {
    ClearedLow(alu);
  }

  lemma JumpsWhen(k: C.Core, x: C.In, i: Isa.Instr)
    requires C.Shape(k) && PcSelected(x.ins, i) && !C.Start(k, x) && !C.Stop(x)
    ensures C.PcJump(k, x)
       <==> i.Jal? || i.Jalr? || (i.Branch? && Isa.Holds(i.cmp, Isa.X(Abs(k), i.rs1), Isa.X(Abs(k), i.rs2)))
  {
    TakenIs(k, x, i);
  }

  /** Whether the PC jumps, and where. */
  lemma JumpIs(m: Isa.Machine, i: Isa.Instr, alu: Word, jump: bool)
    requires Delivers(m, i, alu) && Isa.NextPc(m, i) % 2 == 0
    requires jump <==> i.Jal? || i.Jalr? || (i.Branch? && Isa.Holds(i.cmp, Isa.X(m, i.rs1), Isa.X(m, i.rs2)))
    ensures Isa.NextPc(m, i) == if jump then Val(alu) / 2 * 2 else Isa.Wrap(m.pc + 4)
  {
  }

  // ----- one cycle

  /** The value on its way into rd. */
  lemma WriteBackReady(k: C.Core, x: C.In, i: Isa.Instr)
    requires Ready(k, x) && Presents(x, i) && Isa.InMemory(Abs(k), i) && Isa.WritesRd(i)
    ensures Val(C.RfWrData(k, x, C.AluRes(k, x))) == Isa.RdValue(Abs(k), i)
  {
    Undisturbed(k, x, i);
    Legal(x, i);
    AluDelivers(k, x, i);
    SelectWrite(x, i);
    NextPcDefaultIs(k, x);
    if i.Load? {
      SelectLoad(x, i);
    }
    WriteBackIs(k, x, i, C.AluRes(k, x));
  }

  /** The address and data on their way into the memory. */
  lemma StoreReady(k: C.Core, x: C.In, i: Isa.Instr)
    requires Ready(k, x) && Presents(x, i) && i.Store?
    ensures Val(C.AluRes(k, x)) == Isa.Address(Abs(k), i) && StoreSelected(k, x, i)
  {
    Undisturbed(k, x, i);
    AluDelivers(k, x, i);
    DeliversAddress(Abs(k), i, C.AluRes(k, x));
    SelectStore(k, x, i);
  }

  lemma DeliversAddress(m: Isa.Machine, i: Isa.Instr, alu: Word)
    requires Delivers(m, i, alu) && i.Store?
    ensures Val(alu) == Isa.Address(m, i)
  {
  }

  lemma EdgeWrites(k: C.Core, x: C.In, i: Isa.Instr, alu: Word)
    requires C.Valid(k) && !C.Start(k, x) && WriteSelected(x.ins, i)
    requires Isa.WritesRd(i) ==> Val(C.RfWrData(k, x, alu)) == Isa.RdValue(Abs(k), i)
    requires i.Store? ==> Val(alu) == Isa.Address(Abs(k), i) && StoreSelected(k, x, i)
    ensures C.Valid(C.NegedgeWith(k, x, alu))
    ensures Abs(C.NegedgeWith(k, x, alu)) == Between(Abs(k), i)
  {
    RegistersAre(k, x, i, alu);
    MemoryIs(k, x, i, alu);
  }

  /** After the falling edge. */
  lemma FallingEdge(k: C.Core, x: C.In, i: Isa.Instr)
    requires Ready(k, x) && Presents(x, i) && Isa.InMemory(Abs(k), i)
    ensures var k1 := C.Negedge(k, x);
      C.Valid(k1) && Abs(k1) == Between(Abs(k), i) && k1.csr == k.csr
  {
    Undisturbed(k, x, i);
    SelectWrite(x, i);
    if Isa.WritesRd(i) {
      WriteBackReady(k, x, i);
    }
    if i.Store? {
      StoreReady(k, x, i);
    }
    EdgeWrites(k, x, i, C.AluRes(k, x));
    CsrKept(k, x, C.AluRes(k, x));
  }

  /** The rising edge from there. */
  lemma RisingEdge(k: C.Core, x: C.In, i: Isa.Instr)
    requires Ready(k, x) && Presents(x, i) && Isa.NextPc(Abs(k), i) % 2 == 0
    ensures var k2 := C.Posedge(k, x);
      && Val(k2.pc) == Isa.NextPc(Abs(k), i) && k2.regs == k.regs && k2.mem == k.mem
      && k2.imemReq && k2.csr == k.csr.(started := false)
  {
    var alu := C.AluRes(k, x);
    Undisturbed(k, x, i);
    Legal(x, i);
    AluDelivers(k, x, i);
    SelectPc(x, i);
    NextPcDefaultIs(k, x);
    NextPcIs(k, x, i, alu);
  }

  /** One cycle of the core is one step of the ISA, for every RV32I instruction, unless it is a
      JALR hazard: registers and memory always agree, and the PC agrees if and only if there is
      no hazard.  The trap registers stay as they are and fetch stays on. */
  lemma CycleRefines(k: C.Core, x: C.In, i: Isa.Instr)
    requires Ready(k, x) && Presents(x, i) && Isa.InMemory(Abs(k), i)
    ensures var k', m' := C.Cycle(k, x), Isa.Step(Abs(k), i);
      && Abs(k').regs == m'.regs && Abs(k').mem == m'.mem
      && (Abs(k') == m' <==> !JalrHazard(Abs(k), i))
      && C.Valid(k') && k'.imemReq && k'.csr == k.csr.(started := false)
  {
    FallingEdge(k, x, i);
    var k1 := C.Negedge(k, x);
    BothLooksEven(Abs(k), Val(x.ins), i);
    BothEdges(k, x, i, k1);
    EdgesMakeStep(Abs(k), i, Abs(C.Posedge(k1, x)));
  }

  /** The alignment exception is missing.  For every jump, branch and other instruction the core
      goes to the target, aligned or not, and takes no trap; so it departs from the ISA if and
      only if bit 1 of the target is set. */
  lemma AlignmentIgnored(k: C.Core, x: C.In, i: Isa.Instr)
    requires Ready(k, x) && Presents(x, i) && Isa.InMemory(Abs(k), i) && !JalrHazard(Abs(k), i)
    ensures var k', target := C.Cycle(k, x), Isa.NextPc(Abs(k), i);
      && Val(k'.pc) == target && k'.csr == k.csr.(started := false)
      && (Isa.Misaligned(Abs(k), i) <==> ToBits(32, target)[1])
  {
    CycleRefines(k, x, i);
    var k' := C.Cycle(k, x);
    BothLooksEven(Abs(k), Val(x.ins), i);
    TargetBits(k'.pc);
  }

  lemma TargetBits(pc: Word)
    requires Val(pc) % 2 == 0
    ensures Val(pc) % 4 != 0 <==> ToBits(32, Val(pc))[1]
  {
    ValToBits(pc);
    LowBits(pc);
    ParityOfFour(Val(pc));
  }

  lemma ParityOfFour(v: int)
    ensures v % 2 == v % 4 % 2
  {
  }

  /** jal x0, 2 at address 0 goes to address 2, without a trap. */
  lemma MisalignedExample(k: C.Core, x: C.In)
    requires Ready(k, x) && k.pc == Rep(32, false) && Val(x.ins) == 0x0020006F
    ensures Isa.Decode(Val(x.ins)) == Isa.Some(Isa.Jal(0, 2)) && Isa.Misaligned(Abs(k), Isa.Jal(0, 2))
    ensures Val(C.Cycle(k, x).pc) == 2 && C.Cycle(k, x).csr == k.csr.(started := false)
  {
    ValZeros(32);
    JumpByTwo();
    LandsOnTwo(Abs(k));
    AlignmentIgnored(k, x, Isa.Jal(0, 2));
  }

  lemma LandsOnTwo(m: Isa.Machine)
    requires m.pc == 0
    ensures Isa.NextPc(m, Isa.Jal(0, 2)) == 2 && Isa.Misaligned(m, Isa.Jal(0, 2))
    ensures !JalrHazard(m, Isa.Jal(0, 2)) && Isa.InMemory(m, Isa.Jal(0, 2))
  {
  }

  lemma JumpByTwo()
    ensures Isa.Decode(0x0020006F) == Isa.Some(Isa.Jal(0, 2))
  {
  }

  lemma BothEdges(k: C.Core, x: C.In, i: Isa.Instr, k1: C.Core)
    requires Ready(k, x) && Presents(x, i)
    requires C.Valid(k1) && k1.csr == k.csr && k1.pc == k.pc && k1.imemReq
    requires Isa.NextPc(Abs(k1), i) % 2 == 0
    ensures var k2 := C.Posedge(k1, x);
      && Abs(k2) == Abs(k1).(pc := Isa.NextPc(Abs(k1), i))
      && C.Valid(k2) && k2.imemReq && k2.csr == k.csr.(started := false)
  {
    RisingEdge(k1, x, i);
  }

  lemma EdgesMakeStep(m: Isa.Machine, i: Isa.Instr, m2: Isa.Machine)
    requires m2 == Between(m, i).(pc := Isa.NextPc(Between(m, i), i))
    ensures m2.regs == Isa.Step(m, i).regs && m2.mem == Isa.Step(m, i).mem
    ensures m2 == Isa.Step(m, i) <==> !JalrHazard(m, i)
  {
    SecondLook(m, i);
  }

  /** The departure is real: jalr x1, 0(x1) at address 0 with x1 = 0x100 lands at 4, not at
      0x100. */
  lemma HazardExample(k: C.Core, x: C.In)
    requires Ready(k, x) && k.pc == Rep(32, false) && Val(k.regs[1]) == 0x100
    requires Val(x.ins) == 0x80E7
    ensures Isa.Decode(Val(x.ins)) == Isa.Some(Isa.Jalr(1, 1, 0))
    ensures Isa.Step(Abs(k), Isa.Jalr(1, 1, 0)).pc == 0x100
    ensures Val(C.Cycle(k, x).pc) == 4
  {
    ValZeros(32);
    ExampleDecodes();
    ExampleTargets(Abs(k));
    FallingEdge(k, x, Isa.Jalr(1, 1, 0));
    RisingEdge(C.Negedge(k, x), x, Isa.Jalr(1, 1, 0));
  }

  lemma ExampleDecodes()
    ensures Isa.Decode(0x80E7) == Isa.Some(Isa.Jalr(1, 1, 0))
  {
  }

  lemma ExampleTargets(m: Isa.Machine)
    requires |m.regs| == 32 && m.regs[1] == 0x100 && m.pc == 0
    ensures Isa.NextPc(m, Isa.Jalr(1, 1, 0)) == 0x100
    ensures Isa.NextPc(Between(m, Isa.Jalr(1, 1, 0)), Isa.Jalr(1, 1, 0)) == 4
  {
  }
}
