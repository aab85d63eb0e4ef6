/** Synchronous traps (RISCV_SingleCycle/csr.sv:75-136, 172-193, riscv_core.sv:191-236,
    284-291): entry from ECALL, EBREAK or an illegal instruction, any handler, return by MRET. */
module RvTrap {
  import opened Bits
  import opened Decode
  import opened RvValues
  import opened RvUnits
  import Adder
  import Alu
  import Csr
  import C = Core
  import Isa
  import RvRefine

  /** The instruction itself asks for a trap, and no interrupt competes. */
  ghost predicate Requests(k: C.Core, x: C.In) {
    && C.Shape(k) && k.imemReq && !k.pc[0]
    && !Csr.Interrupt(k.csr, x.irq, x.ins)
    && (Csr.IsEcall(x.ins) || Csr.IsBreak(x.ins) || Csr.IllegalAck(true, x.ins))
  }

  /** The request is new: there was none in the cycle before. */
  ghost predicate Traps(k: C.Core, x: C.In) { Requests(k, x) && !k.csr.started }

  /** The exception code. */
  function CodeOf(ins: Word): nat {
    if Csr.IllegalAck(true, ins) then 2 else if Csr.IsEcall(ins) then 11 else 3
  }

  /** The base address in mtvec. */
  function TrapBase(c: Csr.Csr): Word { [false, false] + c.mtvec[2..] }

  /** CSRRC and CSRRCI with an address csr.sv does not know: the arithmetic unit is still set to
      AND, so the zero offset wipes out the base. */
  predicate Cleared(ins: Word) { CType(ins) && (Funct3(ins) == 3 || Funct3(ins) == 7) }

  // ----- entry

  lemma TrapStarts(k: C.Core, x: C.In)
    requires Traps(k, x)
    ensures C.Start(k, x) && !C.Stop(x) && !SType(x.ins)
    ensures Csr.WrEn(x.ins) ==> !Csr.KnownCsr(Csr.SysImm(x.ins))
  {
  }

  /** The CSRs after the falling edge. */
  function Entered(k: C.Core, ins: Word): Csr.Csr {
    k.csr.(mepc := k.pc, mstatus := Csr.Enter(k.csr.mstatus), mtinst := ins,
           mcause := ToBits(31, CodeOf(ins)) + [false])
  }

  lemma EntryCsr(k: C.Core, x: C.In, alu: Word)
    requires Traps(k, x)
    ensures Csr.Negedge(k.csr, x.irq, k.imemReq, k.pc, x.ins, alu) == Entered(k, x.ins)
  {
    TrapStarts(k, x);
  }

  /** Registers and memory stay as they are. */
  lemma EntryFalls(k: C.Core, x: C.In, alu: Word)
    requires Traps(k, x)
    ensures C.NegedgeWith(k, x, alu) == k.(csr := Entered(k, x.ins))
  {
    TrapStarts(k, x);
    EntryCsr(k, x, alu);
  }

  lemma EnterMasks(c: Csr.Csr, irq: Csr.Irq, ins: Word)
    requires Csr.Interrupt(c.(mstatus := Csr.Enter(c.mstatus)), irq, ins)
    ensures Csr.Interrupt(c, irq, ins)
  {
  }

  lemma SameMasks(c: Csr.Csr, c': Csr.Csr, irq: Csr.Irq, ins: Word)
    requires c'.mstatus == c.mstatus && c'.mie == c.mie
    ensures Csr.Interrupt(c', irq, ins) == Csr.Interrupt(c, irq, ins)
  {
  }

  /** Between the edges the request is still up: entering only ever takes interrupts away. */
  lemma StillTraps(k: C.Core, x: C.In)
    requires Traps(k, x)
    ensures Traps(k.(csr := Entered(k, x.ins)), x)
  {
    var c' := Entered(k, x.ins);
    SameMasks(k.csr.(mstatus := Csr.Enter(k.csr.mstatus)), c', x.irq, x.ins);
    if Csr.Interrupt(c', x.irq, x.ins) {
      EnterMasks(k.csr, x.irq, x.ins);
    }
  }

  /** Only interrupts are vectored. */
  lemma NoOffset(c: Csr.Csr, irq: Csr.Irq, imemReq: bool, pc: Word, ins: Word)
    requires !Csr.Interrupt(c, irq, ins)
    ensures Csr.Offset(c, Csr.Cause(c, irq, imemReq, pc, ins)) == Rep(32, false)
  {
  }

  lemma StartOperands(k: C.Core, x: C.In)
    requires C.Shape(k) && C.Start(k, x) && !C.Stop(x)
    ensures C.AluA(k, x) == TrapBase(k.csr)
    ensures C.AluB(k, x) == Csr.Offset(k.csr, Csr.Cause(k.csr, x.irq, k.imemReq, k.pc, x.ins))
  {
  }

  lemma EntryOperands(k: C.Core, x: C.In)
    requires Traps(k, x)
    ensures C.AluA(k, x) == TrapBase(k.csr) && C.AluB(k, x) == Rep(32, false)
  {
    TrapStarts(k, x);
    StartOperands(k, x);
    NoOffset(k.csr, x.irq, k.imemReq, k.pc, x.ins);
  }

  lemma SystemBit(ins: Word)
    requires Opcode(ins) == SYSTEM
    ensures ins[4] && !LType(ins)
  {
    RvRefine.BitsOfSeven(ins[0..7]);
    assert ins[0..7][4] == ins[4];
  }

  lemma EntryOp(k: C.Core, x: C.In)
    requires Traps(k, x)
    ensures AluOp(x.ins) == if Cleared(x.ins) then Alu.AND
                            else if CType(x.ins) && (Funct3(x.ins) == 2 || Funct3(x.ins) == 6) then Alu.OR else Alu.ADD
  {
  }

  lemma AddZero(a: Word)
    ensures Alu.DataFlow(Alu.ADD, a, Rep(32, false)) == a
  {
    ValZeros(32);
    ValToBits(a);
  }

  lemma MaskZero(a: Word)
    ensures Or(a, Rep(32, false)) == a
    ensures And(a, Rep(32, false)) == Rep(32, false)
  {
  }

  lemma WithZero(op: Alu.Op, a: Word)
    requires op == Alu.ADD || op == Alu.OR || op == Alu.AND
    ensures Alu.GateFlow(op, a, Rep(32, false)) == if op == Alu.AND then Rep(32, false) else a
  {
    Alu.GateFlowIsDataFlow(op, a, Rep(32, false));
    if op == Alu.ADD {
      AddZero(a);
    } else {
      MaskZero(a);
    }
  }

  /** Where the trap goes. */
  function Target(c: Csr.Csr, ins: Word): Word { if Cleared(ins) then Rep(32, false) else TrapBase(c) }

  lemma EntryTarget(k: C.Core, x: C.In)
    requires Traps(k, x)
    ensures C.AluRes(k, x) == Target(k.csr, x.ins)
  {
    EntryOperands(k, x);
    EntryOp(k, x);
    WithZero(AluOp(x.ins), TrapBase(k.csr));
  }

  lemma EntryPc(k: C.Core, x: C.In, alu: Word)
    requires Traps(k, x) && alu == Target(k.csr, x.ins)
    ensures C.NextPc(k, x, alu) == alu
  {
    TrapStarts(k, x);
  }

  /** The rising edge of the entry. */
  lemma EntryRises(k: C.Core, x: C.In)
    requires Traps(k, x)
    ensures C.Posedge(k, x)
         == k.(pc := Target(k.csr, x.ins), imemReq := C.InstReq(k, x), csr := k.csr.(started := true))
  {
    EntryTarget(k, x);
    EntryPc(k, x, C.AluRes(k, x));
    TrapStarts(k, x);
  }

  lemma EntryCycle(k: C.Core, x: C.In)
    requires Traps(k, x)
    ensures C.Cycle(k, x)
         == k.(pc := Target(k.csr, x.ins), imemReq := C.InstReq(k, x), csr := Entered(k, x.ins).(started := true))
  {
    EntryFalls(k, x, C.AluRes(k, x));
    StillTraps(k, x);
    EntryRises(k.(csr := Entered(k, x.ins)), x);
  }

  // ----- a request that is not new

  lemma DropStarts(k: C.Core, x: C.In)
    requires Requests(k, x) && k.csr.started
    ensures !C.Start(k, x) && !C.Stop(x)
  {
  }

  lemma NoKnownWrite(ins: Word)
    requires Csr.IsEcall(ins) || Csr.IsBreak(ins) || Csr.IllegalAck(true, ins)
    ensures !DmemWr(ins) && (Csr.WrEn(ins) ==> !Csr.KnownCsr(Csr.SysImm(ins)))
  {
  }

  lemma NoJump(k: C.Core, x: C.In)
    requires C.Shape(k) && (Csr.IsEcall(x.ins) || Csr.IsBreak(x.ins) || Csr.IllegalAck(true, x.ins))
    ensures !C.BranchTaken(k, x) && !PcSel(x.ins)
  {
  }

  lemma DropFalls(k: C.Core, x: C.In, alu: Word)
    requires Requests(k, x) && k.csr.started
    ensures C.NegedgeWith(k, x, alu) == k.(regs := C.NegedgeWith(k, x, alu).regs)
  {
    DropStarts(k, x);
    NoKnownWrite(x.ins);
  }

  lemma DropWrites(k: C.Core, x: C.In, alu: Word)
    requires Requests(k, x) && k.csr.started
    ensures C.NegedgeWith(k, x, alu).regs
         == if RfEn(x.ins) && Rd(x.ins) != 0 then k.regs[Rd(x.ins) := C.RfWrData(k, x, alu)] else k.regs
  {
    DropStarts(k, x);
  }

  lemma DropRises(k: C.Core, x: C.In, alu: Word)
    requires Requests(k, x) && k.csr.started
    ensures C.PosedgeWith(k, x, alu) == k.(pc := C.NextPcDefault(k, x), imemReq := C.InstReq(k, x))
  {
    DropStarts(k, x);
    NoJump(k, x);
  }

  /** Nothing is saved and the program goes on; an illegal instruction may even write rd. */
  ghost predicate Dropped(k: C.Core, x: C.In, k': C.Core)
    requires C.Shape(k)
  {
    && k'.csr == k.csr && k'.mem == k.mem && k'.pc == C.NextPcDefault(k, x)
    && k'.regs == if RfEn(x.ins) && Rd(x.ins) != 0 then k.regs[Rd(x.ins) := C.RfWrData(k, x, C.AluRes(k, x))]
                  else k.regs
  }

  lemma DropCycle(k: C.Core, x: C.In)
    requires Requests(k, x) && k.csr.started
    ensures Dropped(k, x, C.Cycle(k, x))
  {
    DropFalls(k, x, C.AluRes(k, x));
    DropWrites(k, x, C.AluRes(k, x));
    var k1 := C.Negedge(k, x);
    DropRises(k1, x, C.AluRes(k1, x));
  }

  /** What a trap does: mepc is p, MIE moves to MPIE, the cause is recorded, and no register and
      no memory byte is written. */
  ghost predicate Taken(k: C.Core, x: C.In, k': C.Core) {
    && k'.regs == k.regs && k'.mem == k.mem && k'.csr == Entered(k, x.ins).(started := true)
    && k'.pc == Target(k.csr, x.ins)
  }

  /** Trap entry.  A request by ECALL, EBREAK or an illegal instruction is taken, unless the cycle
      before had one too: then it is dropped. */
  lemma TrapEntry(k: C.Core, x: C.In)
    requires Requests(k, x)
    ensures if k.csr.started then Dropped(k, x, C.Cycle(k, x)) else Taken(k, x, C.Cycle(k, x))
  {
    if k.csr.started {
      DropCycle(k, x);
    } else {
      EntryCycle(k, x);
    }
  }

  /** Control reaches the base in mtvec if and only if the instruction is not a CSRRC or CSRRCI of
      an unknown CSR or the base is 0: those two land at address 0. */
  lemma TargetIsBase(k: C.Core, x: C.In)
    requires Traps(k, x)
    ensures C.Cycle(k, x).pc == TrapBase(k.csr) <==> !Cleared(x.ins) || TrapBase(k.csr) == Rep(32, false)
  {
    EntryCycle(k, x);
  }

  /** So the first instruction of a handler cannot trap: the entry leaves the flag up. */
  lemma NestedTrapDropped(k: C.Core, x: C.In, x': C.In)
    requires Traps(k, x) && Requests(C.Cycle(k, x), x')
    ensures Dropped(C.Cycle(k, x), x', C.Cycle(C.Cycle(k, x), x'))
  {
    EntryStarts(k, x);
    DropCycle(C.Cycle(k, x), x');
  }

  lemma EntryStarts(k: C.Core, x: C.In)
    requires Traps(k, x)
    ensures C.Cycle(k, x).csr.started
  {
    EntryCycle(k, x);
  }

  lemma EcallFields(ins: Word)
    requires Val(ins) == 0x73
    ensures Csr.IsEcall(ins)
  {
    Powers();
    Is32BitIff(ins);
    FieldsAre(ins);
    Slice(ins, 20, 12);
    assert IType(ins);
    assert ImmI(ins)[0..12] == ins[20..32];
  }

  /** A word that asks for a trap has a bit set, so fetch stays on. */
  lemma RequestNonZero(ins: Word)
    requires Csr.IsEcall(ins) || Csr.IsBreak(ins) || Csr.IllegalAck(true, ins)
    ensures OrAll(ins)
  {
    if Opcode(ins) == SYSTEM {
      SystemBit(ins);
    }
  }

  lemma EntryFetches(k: C.Core, x: C.In, k': C.Core)
    requires Traps(k, x) && k' == C.Cycle(k, x)
    ensures C.Shape(k') && k'.imemReq && !k'.pc[0]
  {
    EntryCycle(k, x);
    RequestNonZero(x.ins);
  }

  /** The state an entry leaves meets the request of any other instruction, if no line is up. */
  lemma EntryAllows(k: C.Core, x: C.In, k': C.Core, x': C.In)
    requires Traps(k, x) && k' == C.Cycle(k, x)
    requires x'.irq == Csr.Irq(false, false, false) && Csr.IsEcall(x'.ins)
    ensures Requests(k', x')
  {
    EntryFetches(k, x, k');
  }

  /** The departure is real: a handler that starts with ECALL loses it after every entry. */
  lemma NestedExample(k: C.Core, x: C.In, x': C.In)
    requires Traps(k, x) && Val(x'.ins) == 0x73 && x'.irq == Csr.Irq(false, false, false)
    ensures Requests(C.Cycle(k, x), x') && Dropped(C.Cycle(k, x), x', C.Cycle(C.Cycle(k, x), x'))
  {
    EcallFields(x'.ins);
    EntryAllows(k, x, C.Cycle(k, x), x');
    NestedTrapDropped(k, x, x');
  }

  lemma UnknownFields(ins: Word)
    requires Val(ins) == 0xFB
    ensures Opcode(ins) == 0x7B && Rd(ins) == 1 && Rs1(ins) == 0 && Is32Bit(ins)
  {
    Powers();
    Is32BitIff(ins);
    FieldsAre(ins);
  }

  lemma UnknownRequests(k: C.Core, x: C.In)
    requires C.Shape(k) && k.imemReq && !k.pc[0] && x.irq == Csr.Irq(false, false, false)
    requires Opcode(x.ins) == 0x7B && Is32Bit(x.ins)
    ensures Requests(k, x)
  {
    ValZeroIff(x.ins[0..7]);
  }

  lemma UnknownOperands(k: C.Core, x: C.In)
    requires C.Valid(k) && !C.Start(k, x) && Opcode(x.ins) == 0x7B && Rs1(x.ins) == 0
    ensures C.AluA(k, x) == Rep(32, false) && C.AluB(k, x) == Rep(32, false) && AluOp(x.ins) == Alu.ADD
  {
  }

  lemma UnknownResult(k: C.Core, x: C.In)
    requires C.Valid(k) && !C.Start(k, x) && Opcode(x.ins) == 0x7B && Rs1(x.ins) == 0
    ensures C.AluRes(k, x) == Rep(32, false)
  {
    UnknownOperands(k, x);
    WithZero(Alu.ADD, Rep(32, false));
  }

  lemma UnknownWrites(k: C.Core, x: C.In, alu: Word)
    requires Opcode(x.ins) == 0x7B
    ensures RfEn(x.ins) && C.RfWrData(k, x, alu) == alu
  {
  }

  /** The departure is real: right after a trap the word 0xFB, whose opcode is unknown, is no trap but
      clears x1. */
  lemma IllegalWritesExample(k: C.Core, x: C.In)
    requires C.Valid(k) && k.imemReq && !k.pc[0] && k.csr.started && x.irq == Csr.Irq(false, false, false)
    requires Val(x.ins) == 0xFB && k.regs[1] != Rep(32, false)
    ensures Requests(k, x) && Csr.IllegalAck(true, x.ins) && Dropped(k, x, C.Cycle(k, x))
    ensures C.Cycle(k, x).regs[1] == Rep(32, false)
  {
    UnknownFields(x.ins);
    UnknownRequests(k, x);
    DropStarts(k, x);
    UnknownResult(k, x);
    UnknownWrites(k, x, C.AluRes(k, x));
    DropCycle(k, x);
  }

  /** The departure is real: csrrc x0, 0x7C0, x1 reaches address 0 whatever mtvec says. */
  lemma ClearedExample(k: C.Core, x: C.In)
    requires C.Shape(k) && k.imemReq && !k.pc[0] && !k.csr.started
    requires x.irq == Csr.Irq(false, false, false) && Val(x.ins) == 0x7C00B073
    ensures C.Cycle(k, x).pc == Rep(32, false)
  {
    FieldsOf(x.ins);
    FieldsMean(x.ins);
    ExampleTraps(k, x);
    ClearedTarget(k, x);
  }

  lemma FieldsMean(ins: Word)
    requires Opcode(ins) == SYSTEM && Funct3(ins) == 3 && Csr.SysImm(ins) == 0x7C0
    ensures Cleared(ins) && Csr.IllegalAck(true, ins)
  {
  }

  lemma ExampleTraps(k: C.Core, x: C.In)
    requires C.Shape(k) && k.imemReq && !k.pc[0] && !k.csr.started
    requires x.irq == Csr.Irq(false, false, false) && Csr.IllegalAck(true, x.ins)
    ensures Traps(k, x)
  {
  }

  lemma ClearedTarget(k: C.Core, x: C.In)
    requires Traps(k, x) && Cleared(x.ins)
    ensures C.Cycle(k, x).pc == Rep(32, false)
  {
    EntryCycle(k, x);
  }

  lemma FieldsOf(ins: Word)
    requires Val(ins) == 0x7C00B073
    ensures Opcode(ins) == SYSTEM && Funct3(ins) == 3 && Csr.SysImm(ins) == 0x7C0
  {
    Powers();
    Is32BitIff(ins);
    FieldsAre(ins);
    Slice(ins, 20, 12);
    assert IType(ins);
    assert ImmI(ins)[0..12] == ins[20..32];
  }

  // ----- return

  lemma ReturnSignals(k: C.Core, x: C.In)
    requires C.Shape(k) && C.Stop(x) && !k.pc[0]
    ensures !C.Start(k, x) && !Csr.Request(k.csr, x.irq, k.imemReq, k.pc, x.ins)
    ensures !CType(x.ins) && !DmemWr(x.ins) && Rd(x.ins) == 0
  {
  }

  lemma ReturnOperands(k: C.Core, x: C.In)
    requires C.Shape(k) && C.Stop(x) && !k.pc[0]
    ensures AluOp(x.ins) == Alu.ADD && C.AluA(k, x) == k.csr.mepc && C.AluB(k, x) == ToBits(32, 4)
  {
    ReturnSignals(k, x);
    SystemBit(x.ins);
  }

  lemma ReturnTarget(k: C.Core, x: C.In)
    requires C.Shape(k) && C.Stop(x) && !k.pc[0]
    ensures Val(C.AluRes(k, x)) == Isa.Wrap(Val(k.csr.mepc) + 4)
  {
    ReturnOperands(k, x);
    AluIs(Isa.ADD, k.csr.mepc, ToBits(32, 4));
    Powers();
    ToBitsVal(32, 4);
  }

  /** The falling edge of a return only moves MPIE back. */
  lemma ReturnFalls(k: C.Core, x: C.In, alu: Word)
    requires C.Shape(k) && C.Stop(x) && !k.pc[0]
    ensures C.NegedgeWith(k, x, alu) == k.(csr := k.csr.(mstatus := Csr.Leave(k.csr.mstatus)))
  {
    ReturnSignals(k, x);
  }

  /** The rising edge clears bit 0 of the target and the trap-started flag; the rest stays. */
  ghost predicate Rises(k: C.Core, k': C.Core, alu: Word) {
    k'.pc == [false] + alu[1..] && k'.regs == k.regs && k'.mem == k.mem && k'.csr == k.csr.(started := false)
  }

  lemma ReturnRises(k: C.Core, x: C.In, alu: Word)
    requires C.Shape(k) && C.Stop(x) && k.imemReq && !k.pc[0]
    ensures Rises(k, C.PosedgeWith(k, x, alu), alu)
  {
    ReturnSignals(k, x);
  }

  lemma EvenTarget(mepc: Word, alu: Word)
    requires !mepc[0] && Val(alu) == Isa.Wrap(Val(mepc) + 4)
    ensures Val([false] + alu[1..]) == Val(alu)
  {
    LowBits(mepc);
    RvRefine.ClearedLow(alu);
  }

  /** The state a return leaves behind. */
  ghost predicate Returned(k: C.Core, k': C.Core) {
    && Val(k'.pc) == Isa.Wrap(Val(k.csr.mepc) + 4)
    && k'.regs == k.regs && k'.mem == k.mem
    && k'.csr == k.csr.(mstatus := Csr.Leave(k.csr.mstatus), started := false)
  }

  /** What the rising edge of a return makes of k. */
  ghost predicate Resumes(k: C.Core, k': C.Core) {
    && Val(k'.pc) == Isa.Wrap(Val(k.csr.mepc) + 4)
    && k'.regs == k.regs && k'.mem == k.mem && k'.csr == k.csr.(started := false)
  }

  lemma RiseResumes(k: C.Core, k': C.Core, alu: Word)
    requires !k.csr.mepc[0] && Val(alu) == Isa.Wrap(Val(k.csr.mepc) + 4) && Rises(k, k', alu)
    ensures Resumes(k, k')
  {
    EvenTarget(k.csr.mepc, alu);
  }

  lemma ReturnTail(k: C.Core, x: C.In)
    requires C.Shape(k) && C.Stop(x) && k.imemReq && !k.pc[0] && !k.csr.mepc[0]
    ensures Resumes(k, C.Posedge(k, x))
  {
    ReturnTarget(k, x);
    ReturnRises(k, x, C.AluRes(k, x));
    RiseResumes(k, C.Posedge(k, x), C.AluRes(k, x));
  }

  lemma ReturnEdges(k: C.Core, k1: C.Core, k': C.Core)
    requires k1 == k.(csr := k.csr.(mstatus := Csr.Leave(k.csr.mstatus))) && Resumes(k1, k')
    ensures Returned(k, k')
  {
  }

  lemma ReturnHead(k: C.Core, x: C.In)
    requires C.Shape(k) && C.Stop(x) && !k.pc[0]
    ensures C.Negedge(k, x) == k.(csr := k.csr.(mstatus := Csr.Leave(k.csr.mstatus)))
  {
    ReturnFalls(k, x, C.AluRes(k, x));
  }

  /** One return: control goes to the instruction after the one mepc names; registers and memory
      stay, MPIE moves back to MIE. */
  lemma ReturnCycle(k: C.Core, x: C.In)
    requires C.Shape(k) && C.Stop(x) && k.imemReq && !k.pc[0] && !k.csr.mepc[0]
    ensures Returned(k, C.Cycle(k, x))
  {
    ReturnHead(k, x);
    var k1 := k.(csr := k.csr.(mstatus := Csr.Leave(k.csr.mstatus)));
    ReturnTail(k1, x);
    ReturnEdges(k, k1, C.Posedge(k1, x));
  }

  // ----- any handler

  /** A cycle of a handler: no trap, no return, and no write to the two registers the return
      needs.  Everything else, other CSRs included, may change. */
  ghost predicate Handles(k: C.Core, x: C.In) {
    && C.Shape(k) && !C.Start(k, x) && !C.Stop(x)
    && !Csr.Writes(x.ins, Csr.CSR_MEPC) && !Csr.Writes(x.ins, Csr.CSR_MSTATUS)
  }

  lemma HandlerKeeps(k: C.Core, k': C.Core, x: C.In)
    requires Handles(k, x) && k' == C.Cycle(k, x)
    ensures k'.csr.mepc == k.csr.mepc && k'.csr.mstatus == k.csr.mstatus
  {
  }

  lemma DefaultEven(k: C.Core, x: C.In)
    requires !k.pc[0]
    ensures !C.NextPcDefault(k, x)[0]
  {
    SumEven(k.pc, [false, k.imemReq && !Is32Bit(x.ins), k.imemReq && Is32Bit(x.ins)] + Rep(29, false));
  }

  lemma SumEven(a: Word, b: Word)
    requires !a[0] && !b[0]
    ensures !Adder.Adder(false, a, b).sum[0]
  {
    AdderIs(a, b);
    LowBits(a);
    LowBits(b);
    LowBits(Adder.Adder(false, a, b).sum);
  }

  lemma NextEven(k: C.Core, x: C.In, alu: Word)
    requires C.Shape(k) && !k.pc[0]
    ensures !C.PosedgeWith(k, x, alu).pc[0]
  {
    DefaultEven(k, x);
  }

  lemma CycleEven(k: C.Core, k': C.Core, x: C.In)
    requires C.Shape(k) && !k.pc[0] && k' == C.Cycle(k, x)
    ensures !k'.pc[0]
  {
    var k1 := C.Negedge(k, x);
    NextEven(k1, x, C.AluRes(k1, x));
  }

  ghost predicate Run(ks: seq<C.Core>, xs: seq<C.In>) {
    |ks| == |xs| + 1 && forall n :: 0 <= n < |xs| ==> Stepped(ks, xs, n)
  }

  ghost predicate Stepped(ks: seq<C.Core>, xs: seq<C.In>, n: nat)
    requires n < |xs| && |ks| == |xs| + 1
  {
    C.Shape(ks[n]) && ks[n + 1] == C.Cycle(ks[n], xs[n])
  }

  lemma StepEven(ks: seq<C.Core>, xs: seq<C.In>, n: nat)
    requires Run(ks, xs) && n < |xs| && !ks[n].pc[0]
    ensures !ks[n + 1].pc[0]
  {
    assert Stepped(ks, xs, n);
    CycleEven(ks[n], ks[n + 1], xs[n]);
  }

  /** The alignment exception of csr.sv can never fire: whatever the program and the interrupts,
      bit 0 of the PC stays clear, and the test wants bits 0 and 1. */
  lemma {:induction false} NeverMisaligned(ks: seq<C.Core>, xs: seq<C.In>, n: nat)
    requires Run(ks, xs) && n <= |xs| && !ks[0].pc[0]
    ensures !ks[n].pc[0] && !Csr.Misaligned(ks[n].imemReq, ks[n].pc)
  {
    if n > 0 {
      NeverMisaligned(ks, xs, n - 1);
      StepEven(ks, xs, n - 1);
    }
  }

  ghost predicate HandledAt(ks: seq<C.Core>, xs: seq<C.In>, n: nat)
    requires n < |xs| && |ks| == |xs| + 1
  {
    Handles(ks[n], xs[n])
  }

  lemma HandlerStep(ks: seq<C.Core>, xs: seq<C.In>, n: nat)
    requires Run(ks, xs) && n < |xs| && HandledAt(ks, xs, n)
    ensures ks[n + 1].csr.mepc == ks[n].csr.mepc && ks[n + 1].csr.mstatus == ks[n].csr.mstatus
  {
    assert Stepped(ks, xs, n);
    HandlerKeeps(ks[n], ks[n + 1], xs[n]);
  }

  lemma {:induction false} HandlerRun(ks: seq<C.Core>, xs: seq<C.In>, n: nat)
    requires Run(ks, xs) && 1 <= n <= |xs|
    requires forall j :: 1 <= j < n ==> HandledAt(ks, xs, j)
    ensures ks[n].csr.mepc == ks[1].csr.mepc && ks[n].csr.mstatus == ks[1].csr.mstatus
  {
    if n > 1 {
      HandlerRun(ks, xs, n - 1);
      HandlerStep(ks, xs, n - 1);
    }
  }

  lemma ReturnAt(ks: seq<C.Core>, xs: seq<C.In>, n: nat)
    requires Run(ks, xs) && n < |xs| && C.Stop(xs[n]) && ks[n].imemReq && !ks[n].pc[0] && !ks[n].csr.mepc[0]
    ensures Returned(ks[n], ks[n + 1])
  {
    assert Stepped(ks, xs, n);
    ReturnCycle(ks[n], xs[n]);
  }

  /** What the entry leaves for the return. */
  ghost predicate Saved(k: C.Core, k': C.Core) {
    && k'.regs == k.regs && k'.mem == k.mem && !k.pc[0]
    && k'.csr.mepc == k.pc && k'.csr.mstatus == Csr.Enter(k.csr.mstatus)
  }

  lemma EntrySaves(ks: seq<C.Core>, xs: seq<C.In>)
    requires Run(ks, xs) && 0 < |xs| && Traps(ks[0], xs[0])
    ensures Saved(ks[0], ks[1])
  {
    assert Stepped(ks, xs, 0);
    EntryCycle(ks[0], xs[0]);
  }

  /** p resumed after the trap that k took. */
  ghost predicate Resumed(k: C.Core, k': C.Core) {
    && Val(k'.pc) == Isa.Wrap(Val(k.pc) + 4)
    && k'.csr.mstatus == k.csr.mstatus[Csr.MPIE := false] && !k'.csr.started
  }

  lemma SavedAndReturned(k0: C.Core, k1: C.Core, k: C.Core, k': C.Core)
    requires Saved(k0, k1) && Returned(k, k') && k.csr.mepc == k1.csr.mepc && k.csr.mstatus == k1.csr.mstatus
    ensures Resumed(k0, k')
  {
  }

  /** A trap taken at p in cycle 0, a handler of any length, and MRET in cycle n: the program goes
      on at p + 4, MIE and every other bit of mstatus but MPIE is what it was, the entry has
      changed no register or memory byte, and neither has the return. */
  lemma TrapRoundTrip(ks: seq<C.Core>, xs: seq<C.In>, n: nat)
    requires Run(ks, xs) && 1 <= n < |xs| && Traps(ks[0], xs[0])
    requires forall j :: 1 <= j < n ==> HandledAt(ks, xs, j)
    requires C.Stop(xs[n]) && ks[n].imemReq
    ensures Resumed(ks[0], ks[n + 1])
    ensures ks[1].regs == ks[0].regs && ks[1].mem == ks[0].mem
    ensures ks[n + 1].regs == ks[n].regs && ks[n + 1].mem == ks[n].mem
  {
    EntrySaves(ks, xs);
    HandlerRun(ks, xs, n);
    NeverMisaligned(ks, xs, n);
    ReturnAt(ks, xs, n);
    SavedAndReturned(ks[0], ks[1], ks[n], ks[n + 1]);
  }
}
