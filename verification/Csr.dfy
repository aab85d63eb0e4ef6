/** Control and status registers and traps (RISCV_SingleCycle/csr.sv).  Instructions have no
    unknown bits here, so the fetch-fault cause never arises. */
module Csr {
  import opened Bits
  import opened Decode

  /** The registers. */
  datatype Csr = Csr(mie: Word, mip: Word, mepc: Word, mtvec: Word, mscratch: Word, mstatus: Word,
                     mtinst: Word, mcause: Word, started: bool)

  /** Pending interrupt lines. */
  datatype Irq = Irq(ex: bool, sw: bool, timer: bool)

  const MIE: nat := 3
  const MPIE: nat := 7

  // System immediates and CSR addresses.
  const ECALL: nat := 0x000
  const EBREAK: nat := 0x001
  const WFI: nat := 0x105
  const SRET: nat := 0x102
  const MRET: nat := 0x302
  const MNRET: nat := 0x702
  const CSR_MIE: nat := 0x304
  const CSR_MIP: nat := 0x344
  const CSR_MTVEC: nat := 0x305
  const CSR_MSCRATCH: nat := 0x340
  const CSR_MEPC: nat := 0x341
  const CSR_MCAUSE: nat := 0x342
  const CSR_MTINST: nat := 0x34A
  const CSR_MSTATUS: nat := 0x300

  const TRAP_BASE: nat := 0x3DC

  /** The registers after a reset. */
  predicate Reset(c: Csr) {
    var z := Rep(32, false);
    Val(c.mtvec) == TRAP_BASE && c == Csr(z, z, z, c.mtvec, z, z, z, z, false)
  }

  /** The low 12 bits of the immediate. */
  function SysImm(ins: Word): nat { Val(Immediate(ins)[0..12]) }

  predicate IsReturn(ins: Word) { YType(ins) && SysImm(ins) in {SRET, MRET, MNRET} }
  predicate IsEcall(ins: Word) { YType(ins) && SysImm(ins) == ECALL }
  predicate IsBreak(ins: Word) { YType(ins) && SysImm(ins) == EBREAK }

  predicate KnownCsr(a: nat) {
    || a == CSR_MIP || a == CSR_MIE || a == CSR_MEPC || a == CSR_MTVEC
    || a == CSR_MCAUSE || a == CSR_MSTATUS || a == CSR_MSCRATCH || a == CSR_MTINST
  }

  /** A system instruction or a CSR address that csr.sv does not know. */
  predicate IllegalSys(ins: Word) {
    || (YType(ins) && SysImm(ins) !in {ECALL, EBREAK, SRET, MRET, MNRET, WFI})
    || (CType(ins) && !KnownCsr(SysImm(ins)))
  }

  /** irq_stop, a return from a trap. */
  predicate Stop(ins: Word) { IsReturn(ins) }

  predicate IrqEnabled(c: Csr, ins: Word) { !Stop(ins) && (c.mstatus[MIE] || c.mstatus[MPIE]) }
  predicate External(c: Csr, irq: Irq, ins: Word) { IrqEnabled(c, ins) && c.mie[11] && irq.ex }
  predicate Software(c: Csr, irq: Irq, ins: Word) { IrqEnabled(c, ins) && c.mie[3] && irq.sw }
  predicate Timer(c: Csr, irq: Irq, ins: Word) { IrqEnabled(c, ins) && c.mie[7] && irq.timer }

  /** Any interrupt that would be taken. */
  predicate Interrupt(c: Csr, irq: Irq, ins: Word) {
    External(c, irq, ins) || Software(c, irq, ins) || Timer(c, irq, ins)
  }

  predicate IllegalAck(imemReq: bool, ins: Word) {
    imemReq && ((Illegal(ins) && OrAll(ins)) || IllegalSys(ins))
  }

  predicate Misaligned(imemReq: bool, pc: Word) { imemReq && pc[0] && pc[1] }

  /** Exceptions caused by the instruction itself. */
  predicate Exception(imemReq: bool, pc: Word, ins: Word) {
    Misaligned(imemReq, pc) || IllegalAck(imemReq, ins) || IsBreak(ins) || IsEcall(ins)
  }

  /** irq_en and irq_start: the request, and its first clock. */
  predicate Request(c: Csr, irq: Irq, imemReq: bool, pc: Word, ins: Word) {
    Interrupt(c, irq, ins) || Exception(imemReq, pc, ins)
  }
  predicate Start(c: Csr, irq: Irq, imemReq: bool, pc: Word, ins: Word) {
    Request(c, irq, imemReq, pc, ins) && !c.started
  }

  function CauseCode(c: Csr, irq: Irq, imemReq: bool, pc: Word, ins: Word): nat {
    if External(c, irq, ins) then 11
    else if Software(c, irq, ins) then 3
    else if Timer(c, irq, ins) then 7
    else if IllegalAck(imemReq, ins) then 2
    else if Misaligned(imemReq, pc) then 0
    else if IsEcall(ins) then 11
    else if IsBreak(ins) then 3
    else 0
  }

  /** mcause, as interrupt bit and code. */
  function Cause(c: Csr, irq: Irq, imemReq: bool, pc: Word, ins: Word): Word {
    ToBits(31, CauseCode(c, irq, imemReq, pc, ins)) + [Interrupt(c, irq, ins)]
  }

  /** The offset from the trap base: vectored interrupts only. */
  function Offset(c: Csr, cause: Word): Word {
    if cause[31] && c.mtvec[0] then [false, false] + cause[0..30] else Rep(32, false)
  }

  /** The register a CSR instruction reads; mepc on a return. */
  function Value(c: Csr, ins: Word): Word {
    var a := SysImm(ins);
    if Stop(ins) then c.mepc
    else if !CType(ins) then c.mstatus
    else if a == CSR_MIP then c.mip
    else if a == CSR_MIE then c.mie
    else if a == CSR_MEPC then c.mepc
    else if a == CSR_MTVEC then c.mtvec
    else if a == CSR_MCAUSE then c.mcause
    else if a == CSR_MSCRATCH then c.mscratch
    else if a == CSR_MTINST then c.mtinst
    else c.mstatus
  }

  function OutData(c: Csr, start: bool, ins: Word): Word { if start then c.mtvec else Value(c, ins) }

  predicate WrEn(ins: Word) { CType(ins) && Rs1(ins) != 0 }
  predicate Writes(ins: Word, a: nat) { WrEn(ins) && SysImm(ins) == a }

  /** mstatus on entry: MIE moves to MPIE and is cleared. */
  function Enter(m: Word): Word { m[MPIE := m[MIE]][MIE := false] }

  /** mstatus on return: MPIE moves to MIE and is cleared. */
  function Leave(m: Word): Word { m[MIE := m[MPIE]][MPIE := false] }

  /** Trap entry and return, the two interrupts that mip shows, and the cause. */
  datatype Wires = Wires(start: bool, stop: bool, ext: bool, soft: bool, cause: Word)

  /** The registers after the falling edge; en and a are wr_en and sys_imm.  The branches that clear a
      pending bit of mip on a return are left out: they need an interrupt during a return, which
      IrqEnabled rules out. */
  function Driven(c: Csr, w: Wires, pc: Word, ins: Word, en: bool, a: nat, din: Word): Csr {
    Csr(if en && a == CSR_MIE then din else c.mie,
        if w.start && w.ext then din[11 := true] else if w.start && w.soft then din[3 := true]
        else if en && a == CSR_MIP then din[11 := c.mip[11]][7 := c.mip[7]] else c.mip,
        if w.start then pc else if en && a == CSR_MEPC then din else c.mepc,
        if en && a == CSR_MTVEC then din else c.mtvec,
        if en && a == CSR_MSCRATCH then din else c.mscratch,
        if w.start then Enter(c.mstatus) else if w.stop then Leave(c.mstatus)
        else if en && a == CSR_MSTATUS then din else c.mstatus,
        if w.start then ins else if en && a == CSR_MTINST then din else c.mtinst,
        if w.start then w.cause else if en && a == CSR_MCAUSE then din else c.mcause,
        c.started)
  }

  function WiresOf(c: Csr, irq: Irq, imemReq: bool, pc: Word, ins: Word): Wires {
    Wires(Start(c, irq, imemReq, pc, ins), Stop(ins), External(c, irq, ins), Software(c, irq, ins),
          Cause(c, irq, imemReq, pc, ins))
  }

  /** The falling edge. */
  function Negedge(c: Csr, irq: Irq, imemReq: bool, pc: Word, ins: Word, din: Word): Csr {
    Driven(c, WiresOf(c, irq, imemReq, pc, ins), pc, ins, WrEn(ins), SysImm(ins), din)
  }

  /** The rising edge. */
  function Posedge(c: Csr, irq: Irq, imemReq: bool, pc: Word, ins: Word): Csr {
    c.(started := imemReq && Request(c, irq, imemReq, pc, ins))
  }
}
