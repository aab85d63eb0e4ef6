/** The single-cycle core as clocked objects: register file (register_file.sv), trap registers
    (csr.sv), data memory, PC and fetch request (riscv_core.sv).  The falling and the rising edge
    refine Core.Negedge and Core.Posedge. */
module CoreObject {
  import opened Bits
  import opened Decode
  import Memory
  import Csr
  import C = Core

  class RegisterFile {
    const regMem: array<Word>

    constructor ()
      ensures fresh(regMem) && regMem.Length == 32 && forall i :: 0 <= i < 32 ==> regMem[i] == Rep(32, false)
    {
      regMem := new Word[32](_ => Rep(32, false));
    }

    /** The write port, on the falling edge. */
    method Write(en: bool, rd: nat, data: Word)
      requires rd < 32 == regMem.Length
      modifies regMem
      ensures regMem[..] == if en then old(regMem[..])[rd := data] else old(regMem[..])
    {
      if en {
        regMem[rd] := data;
      }
    }
  }

  /** An address as a word. */
  function TrapVector(n: nat, base: nat): (a: Bits)
    requires base < 0x400 && n >= 10
    ensures |a| == n && Val(a) == base
  {
    TenBits(n);
    ToBitsVal(n, base);
    ToBits(n, base)
  }

  lemma TenBits(n: nat)
    requires n >= 10
    ensures Pow2(n) >= 0x400
  {
    Pow2Mono(10, n);
    assert Pow2(10) == 4 * Pow2(8) == 16 * Pow2(6) == 64 * Pow2(4) == 256 * Pow2(2) == 0x400;
  }

  class TrapUnit {
    var mie: Word
    var mip: Word
    var mepc: Word
    var mtvec: Word
    var mscratch: Word
    var mstatus: Word
    var mtinst: Word
    var mcause: Word
    var started: bool

    function Value(): Csr.Csr
      reads this
    {
      Csr.Csr(mie, mip, mepc, mtvec, mscratch, mstatus, mtinst, mcause, started)
    }

    constructor ()
      ensures Csr.Reset(Value())
    {
      mie, mip, mepc := Rep(32, false), Rep(32, false), Rep(32, false);
      mtvec := TrapVector(32, Csr.TRAP_BASE);
      mscratch, mstatus, mtinst, mcause := Rep(32, false), Rep(32, false), Rep(32, false), Rep(32, false);
      started := false;
    }

    /** The registers that only instructions write. */
    method WritePlain(en: bool, a: nat, din: Word)
      modifies this`mie, this`mtvec, this`mscratch
      ensures mie == if en && a == Csr.CSR_MIE then din else old(mie)
      ensures mtvec == if en && a == Csr.CSR_MTVEC then din else old(mtvec)
      ensures mscratch == if en && a == Csr.CSR_MSCRATCH then din else old(mscratch)
    {
      if en && a == Csr.CSR_MIE {
        mie := din;
      }
      if en && a == Csr.CSR_MTVEC {
        mtvec := din;
      }
      if en && a == Csr.CSR_MSCRATCH {
        mscratch := din;
      }
    }

    /** The registers that a trap fills. */
    method WriteTrapped(start: bool, cause: Word, pc: Word, ins: Word, en: bool, a: nat, din: Word)
      modifies this`mepc, this`mtinst, this`mcause
      ensures mepc == if start then pc else if en && a == Csr.CSR_MEPC then din else old(mepc)
      ensures mtinst == if start then ins else if en && a == Csr.CSR_MTINST then din else old(mtinst)
      ensures mcause == if start then cause else if en && a == Csr.CSR_MCAUSE then din else old(mcause)
    {
      if start {
        mepc, mtinst, mcause := pc, ins, cause;
      } else {
        if en && a == Csr.CSR_MEPC {
          mepc := din;
        }
        if en && a == Csr.CSR_MTINST {
          mtinst := din;
        }
        if en && a == Csr.CSR_MCAUSE {
          mcause := din;
        }
      }
    }

    /** The interrupt stack bits. */
    method WriteStatus(start: bool, stop: bool, en: bool, a: nat, din: Word)
      modifies this`mstatus
      ensures mstatus == if start then Csr.Enter(old(mstatus)) else if stop then Csr.Leave(old(mstatus))
                         else if en && a == Csr.CSR_MSTATUS then din else old(mstatus)
    {
      if start {
        mstatus := mstatus[Csr.MPIE := mstatus[Csr.MIE]][Csr.MIE := false];
      } else if stop {
        mstatus := mstatus[Csr.MIE := mstatus[Csr.MPIE]][Csr.MPIE := false];
      } else if en && a == Csr.CSR_MSTATUS {
        mstatus := din;
      }
    }

    /** The pending bits. */
    method WritePending(start: bool, ext: bool, soft: bool, en: bool, a: nat, din: Word)
      modifies this`mip
      ensures mip == if start && ext then din[11 := true] else if start && soft then din[3 := true]
                     else if en && a == Csr.CSR_MIP then din[11 := old(mip)[11]][7 := old(mip)[7]] else old(mip)
    {
      if start && ext {
        mip := din[11 := true];
      } else if start && soft {
        mip := din[3 := true];
      } else if en && a == Csr.CSR_MIP {
        mip := din[11 := mip[11]][7 := mip[7]];
      }
    }

    /** All registers, for given wires; en and a are wr_en and sys_imm. */
    method Drive(w: Csr.Wires, pc: Word, ins: Word, en: bool, a: nat, din: Word)
      modifies this
      ensures Value() == Csr.Driven(old(Value()), w, pc, ins, en, a, din)
    {
      WriteTrapped(w.start, w.cause, pc, ins, en, a, din);
      WriteStatus(w.start, w.stop, en, a, din);
      WritePending(w.start, w.ext, w.soft, en, a, din);
      WritePlain(en, a, din);
    }

    method Negedge(irq: Csr.Irq, imemReq: bool, pc: Word, ins: Word, din: Word)
      modifies this
      ensures Value() == Csr.Negedge(old(Value()), irq, imemReq, pc, ins, din)
    {
      var c := Value();
      Drive(Csr.WiresOf(c, irq, imemReq, pc, ins), pc, ins, Csr.WrEn(ins), Csr.SysImm(ins), din);
    }

    method Posedge(irq: Csr.Irq, imemReq: bool, pc: Word, ins: Word)
      modifies this`started
      ensures Value() == Csr.Posedge(old(Value()), irq, imemReq, pc, ins)
    {
      started := imemReq && Csr.Request(Value(), irq, imemReq, pc, ins);
    }
  }

  class Processor {
    var pc: Word
    var imemReq: bool
    const regs: RegisterFile
    const ram: Memory.Ram
    const csr: TrapUnit

    ghost predicate Valid()
    {
      regs.regMem.Length == 32
    }

    function Value(): (k: C.Core)
      requires Valid()
      reads this, csr, regs.regMem, ram.cells
      ensures C.Shape(k)
    {
      C.Core(pc, imemReq, regs.regMem[..], ram.cells[..], csr.Value())
    }

    constructor (depth: nat)
      ensures Valid() && fresh(regs) && fresh(regs.regMem) && fresh(ram) && fresh(ram.cells) && fresh(csr)
      ensures C.Reset(Value()) && |Value().mem| == depth
    {
      pc, imemReq := Rep(32, false), false;
      regs := new RegisterFile();
      ram := new Memory.Ram(depth);
      csr := new TrapUnit();
    }

    /** The write-back multiplexer, with the data memory behind the load path. */
    method WriteBack(x: C.In, alu: Word) returns (data: Word)
      requires Valid()
      ensures data == C.RfWrData(Value(), x, alu)
    {
      var k := Value();
      if CType(x.ins) {
        data := C.CsrOut(k, x);
      } else {
        match RfSelect(x.ins) {
          case FromAlu => data := alu;
          case FromMem =>
            var word := ram.ReadPort(Val(alu), DmemSize(x.ins));
            word := if Val(alu) < ram.cells.Length then word else x.dbus;
            data := Memory.SignExtend(DmemSize(x.ins), DmemZeroEx(x.ins), word);
          case FromImm => data := Immediate(x.ins);
          case FromPc => data := C.NextPcDefault(k, x);
        }
      }
    }

    /** Registers, memory and trap registers. */
    method Falling(x: C.In)
      requires Valid()
      modifies csr, regs.regMem, ram.cells
      ensures Valid() && Value() == C.Negedge(old(Value()), x)
    {
      var k := Value();
      var alu := C.AluRes(k, x);
      var data := WriteBack(x, alu);
      regs.Write(C.RfWrEn(k, x), Rd(x.ins), data);
      var size := DmemSize(x.ins);
      ram.WriteClock(DmemWr(x.ins), Val(alu), size, Memory.Narrow(size, k.regs[Rs2(x.ins)]));
      csr.Negedge(x.irq, imemReq, pc, x.ins, alu);
    }

    /** PC, fetch request and the trap-started flag. */
    method Rising(x: C.In)
      requires Valid()
      modifies this, csr`started
      ensures Valid() && Value() == C.Posedge(old(Value()), x)
    {
      var k := Value();
      csr.Posedge(x.irq, imemReq, pc, x.ins);
      if imemReq {
        pc := C.NextPc(k, x, C.AluRes(k, x));
      }
      imemReq := C.InstReq(k, x);
    }

    method Cycle(x: C.In)
      requires Valid()
      modifies this, csr, regs.regMem, ram.cells
      ensures Valid() && Value() == C.Cycle(old(Value()), x)
    {
      Falling(x);
      Rising(x);
    }
  }
}
