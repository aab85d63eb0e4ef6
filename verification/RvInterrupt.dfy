/** Entry by an external, software or timer interrupt (RISCV_SingleCycle/csr.sv:60-77, 132-232,
    riscv_core.sv:191-291).  The interrupted instruction is not held back: its operation and its write
    enables are still those of the word, while operands and results are those of the trap. */
module RvInterrupt {
  import opened Bits
  import opened Decode
  import Csr
  import C = Core
  import RvCsr
  import RvValues
  import RvWords

  /** An enabled line is up, and there was no request in the cycle before. */
  ghost predicate Interrupts(k: C.Core, x: C.In) {
    C.Shape(k) && k.imemReq && !k.pc[0] && !k.csr.started && !C.Stop(x)
    && RvCsr.Pending(k.csr.mstatus, k.csr.mie, x.irq)
  }

  lemma InterruptStarts(k: C.Core, x: C.In)
    requires Interrupts(k, x)
    ensures C.Start(k, x) && !C.RfWrEn(k, x)
    ensures Csr.Cause(k.csr, x.irq, k.imemReq, k.pc, x.ins) == ToBits(31, RvCsr.Code(k.csr.mie, x.irq)) + [true]
  {
  }

  /** What the falling edge records: the instruction that was about to run, the code with bit 31 set, the old
      MIE (bit 3) in MPIE (bit 7). */
  ghost predicate Saves(k: C.Core, ins: Word, c: Csr.Csr, code: nat) {
    && c.mepc == k.pc && c.mtinst == ins && c.mcause[31] && Val(c.mcause[..31]) == code
    && c.mstatus == k.csr.mstatus[7 := k.csr.mstatus[3]][3 := false] && c.started == k.csr.started
  }

  /** The rest depends on the word on the result bus, which is where the trap goes: it is left in mip with the
      bit of the interrupt set, and in mie, mtvec or mscratch if the instruction would have written them. */
  ghost predicate Spills(k: C.Core, x: C.In, c: Csr.Csr, alu: Word) {
    && c.mip == (if k.csr.mie[11] && x.irq.ex then alu[11 := true]
                 else if k.csr.mie[3] && x.irq.sw then alu[3 := true]
                 else if Csr.Writes(x.ins, 0x344) then alu[11 := k.csr.mip[11]][7 := k.csr.mip[7]] else k.csr.mip)
    && c.mie == (if Csr.Writes(x.ins, 0x304) then alu else k.csr.mie)
    && c.mtvec == (if Csr.Writes(x.ins, 0x305) then alu else k.csr.mtvec)
    && c.mscratch == (if Csr.Writes(x.ins, 0x340) then alu else k.csr.mscratch)
  }

  lemma CodeBits(n: nat, code: nat)
    requires code < Pow2(n)
    ensures Val((ToBits(n, code) + [true])[..n]) == code
  {
    ToBitsVal(n, code);
    assert (ToBits(n, code) + [true])[..n] == ToBits(n, code);
  }

  lemma FallingCsr(k: C.Core, x: C.In, alu: Word)
    requires Interrupts(k, x)
    ensures var c, cause := C.NegedgeWith(k, x, alu).csr, Csr.Cause(k.csr, x.irq, k.imemReq, k.pc, x.ins);
      && c.mcause == cause && c.mepc == k.pc && c.mtinst == x.ins && c.started == k.csr.started
      && c.mstatus == Csr.Enter(k.csr.mstatus)
      && Spills(k, x, c, alu)
  {
    InterruptStarts(k, x);
  }

  lemma FallingSaves(k: C.Core, x: C.In, alu: Word)
    requires Interrupts(k, x)
    ensures Saves(k, x.ins, C.NegedgeWith(k, x, alu).csr, RvCsr.Code(k.csr.mie, x.irq))
  {
    InterruptStarts(k, x);
    FallingCsr(k, x, alu);
    RvWords.StackBits(k.csr.mstatus);
    RvValues.Powers();
    CodeBits(31, RvCsr.Code(k.csr.mie, x.irq));
  }

  /** The falling edge of an interrupt.  No register is written; a store is still carried out, at the address
      where the trap goes. */
  lemma InterruptSaves(k: C.Core, x: C.In)
    requires Interrupts(k, x)
    ensures var k1, alu := C.Negedge(k, x), C.AluRes(k, x);
      && Saves(k, x.ins, k1.csr, RvCsr.Code(k.csr.mie, x.irq)) && Spills(k, x, k1.csr, alu)
      && k1.regs == k.regs && k1.mem == if SType(x.ins) then C.StoreData(k, x, alu) else k.mem
  {
    InterruptStarts(k, x);
    FallingCsr(k, x, C.AluRes(k, x));
    FallingSaves(k, x, C.AluRes(k, x));
  }

  lemma MaskedBetween(k: C.Core, x: C.In, c: Csr.Csr, code: nat)
    requires Interrupts(k, x) && Saves(k, x.ins, c, code) && c.mie == k.csr.mie
    ensures Csr.Interrupt(c, x.irq, x.ins) <==> k.csr.mstatus[3]
  {
  }

  lemma JumpsIf(k: C.Core, x: C.In, alu: Word)
    requires C.Shape(k) && k.imemReq && !k.pc[0] && !k.csr.started && !C.Stop(x)
    requires !Csr.IsEcall(x.ins) && !Csr.IsBreak(x.ins) && !Csr.IllegalAck(true, x.ins)
    ensures C.PosedgeWith(k, x, alu).csr.started <==> Csr.Interrupt(k.csr, x.irq, x.ins)
    ensures Csr.Interrupt(k.csr, x.irq, x.ins) ==> C.PosedgeWith(k, x, alu).pc == [false] + alu[1..]
    ensures !Csr.Interrupt(k.csr, x.irq, x.ins) && !PcSel(x.ins) && !BType(x.ins) ==>
      C.PosedgeWith(k, x, alu).pc == C.NextPcDefault(k, x)
  {
  }

  /** The whole cycle, for an instruction that asks for no trap itself and does not write mie: control leaves
      the program if and only if MIE (bit 3) was set.  If only MPIE (bit 7) was, as it is in a handler, the
      interrupt has overwritten mepc, mcause and mstatus, and the program goes on without having executed
      the instruction. */
  lemma InterruptJumps(k: C.Core, x: C.In, k': C.Core)
    requires Interrupts(k, x) && k' == C.Cycle(k, x) && !Csr.Writes(x.ins, 0x304)
    requires !Csr.IsEcall(x.ins) && !Csr.IsBreak(x.ins) && !Csr.IllegalAck(true, x.ins)
    ensures k'.csr.started <==> k.csr.mstatus[3]
    ensures k.csr.mstatus[3] ==> k'.pc == [false] + C.AluRes(C.Negedge(k, x), x)[1..]
    ensures !k.csr.mstatus[3] && !PcSel(x.ins) && !BType(x.ins) ==> k'.pc == C.NextPcDefault(k, x)
    ensures Saves(k, x.ins, k'.csr.(started := k.csr.started), RvCsr.Code(k.csr.mie, x.irq)) && k'.regs == k.regs
  {
    var k1 := C.Negedge(k, x);
    InterruptSaves(k, x);
    MaskedBetween(k, x, k1.csr, RvCsr.Code(k.csr.mie, x.irq));
    JumpsIf(k1, x, C.AluRes(k1, x));
  }
}
