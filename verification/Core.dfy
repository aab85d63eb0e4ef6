/** The single-cycle core (RISCV_SingleCycle/riscv_core.sv) with its register file, data memory
    and CSRs: the falling edge writes registers, memory and CSRs, the rising edge the PC. */
module Core {
  import opened Bits
  import opened Decode
  import Adder
  import Alu
  import Memory
  import Csr

  /** Everything the core and the units around it remember. */
  datatype Core = Core(pc: Word, imemReq: bool, regs: seq<Word>, mem: seq<Memory.Byte>, csr: Csr.Csr)

  /** What comes from outside during a cycle: the fetched instruction, the interrupt lines, and
      the data bus for addresses beyond the data memory. */
  datatype In = In(ins: Word, irq: Csr.Irq, dbus: Word)

  ghost predicate Valid(k: Core) { |k.regs| == 32 && k.regs[0] == Rep(32, false) }

  predicate Shape(k: Core) { |k.regs| == 32 }

  /** The state after a reset, which leaves the data memory alone. */
  ghost predicate Reset(k: Core) {
    && k.pc == Rep(32, false) && !k.imemReq && Csr.Reset(k.csr)
    && |k.regs| == 32 && forall r :: 0 <= r < 32 ==> k.regs[r] == Rep(32, false)
  }

  // ----- combinational signals

  predicate Start(k: Core, x: In) { Csr.Start(k.csr, x.irq, k.imemReq, k.pc, x.ins) }
  predicate Stop(x: In) { Csr.Stop(x.ins) }

  function CsrOut(k: Core, x: In): Word { Csr.OutData(k.csr, Start(k, x), x.ins) }

  function AluA(k: Core, x: In): Word
    requires Shape(k)
  {
    var rs1 := k.regs[Rs1(x.ins)];
    var f3 := Funct3(x.ins);
    if Stop(x) then CsrOut(k, x)
    else if Start(k, x) then [false, false] + CsrOut(k, x)[2..]
    else if CType(x.ins) then
      if f3 == 1 || f3 == 2 then rs1
      else if f3 == 3 then Not(rs1)
      else if f3 == 7 then Not(x.ins[15..20]) + Rep(27, true)
      else x.ins[15..20] + Rep(27, false)
    else if AluaSel(x.ins) then k.pc
    else rs1
  }

  function AluB(k: Core, x: In): Word
    requires Shape(k)
  {
    var f3 := Funct3(x.ins);
    if Stop(x) then ToBits(32, 4)
    else if Start(k, x) then Csr.Offset(k.csr, Csr.Cause(k.csr, x.irq, k.imemReq, k.pc, x.ins))
    else if CType(x.ins) then (if f3 / 2 % 2 == 1 then CsrOut(k, x) else Rep(32, false))
    else if AlubSel(x.ins) then Immediate(x.ins)
    else k.regs[Rs2(x.ins)]
  }

  function AluRes(k: Core, x: In): Word
    requires Shape(k)
  {
    Alu.GateFlow(AluOp(x.ins), AluA(k, x), AluB(k, x))
  }

  // The signals below take the result of the arithmetic unit as a wire.

  /** The value on the load path. */
  function LoadData(k: Core, x: In, alu: Word): Word {
    var addr, size := Val(alu), DmemSize(x.ins);
    Memory.SignExtend(size, DmemZeroEx(x.ins), if addr < |k.mem| then Memory.Read(k.mem, addr, size, false) else x.dbus)
  }

  /** The data memory after a store. */
  function StoreData(k: Core, x: In, alu: Word): seq<Memory.Byte>
    requires Shape(k)
  {
    var size := DmemSize(x.ins);
    Memory.Write(k.mem, Val(alu), size, Memory.Narrow(size, k.regs[Rs2(x.ins)]))
  }

  /** The PC adder: plus 4, plus 2 for a 16-bit encoding, nothing while fetch is off. */
  function NextPcDefault(k: Core, x: In): Word {
    var step := [false, k.imemReq && !Is32Bit(x.ins), k.imemReq && Is32Bit(x.ins)] + Rep(29, false);
    Adder.Adder(false, k.pc, step).sum
  }

  function RfWrData(k: Core, x: In, alu: Word): Word {
    if CType(x.ins) then CsrOut(k, x)
    else match RfSelect(x.ins)
      case FromAlu => alu
      case FromMem => LoadData(k, x, alu)
      case FromImm => Immediate(x.ins)
      case FromPc => NextPcDefault(k, x)
  }

  predicate RfWrEn(k: Core, x: In) { RfEn(x.ins) && Rd(x.ins) != 0 && !Start(k, x) }

  predicate BranchTaken(k: Core, x: In)
    requires Shape(k)
  {
    Alu.BranchGate(BType(x.ins), Funct3(x.ins), k.regs[Rs1(x.ins)], k.regs[Rs2(x.ins)])
  }

  predicate PcJump(k: Core, x: In)
    requires Shape(k)
  {
    BranchTaken(k, x) || PcSel(x.ins) || Start(k, x) || Stop(x)
  }

  function NextPc(k: Core, x: In, alu: Word): Word
    requires Shape(k)
  {
    if PcJump(k, x) then [false] + alu[1..] else NextPcDefault(k, x)
  }

  /** Fetch stays on until an all-zero instruction other than the one at the base address. */
  predicate InstReq(k: Core, x: In) { k.pc == Rep(32, false) || OrAll(x.ins) }

  // ----- the two edges

  /** Falling edge: register file, data memory and CSRs, all from the values before it. */
  function NegedgeWith(k: Core, x: In, alu: Word): (k': Core)
    requires Shape(k)
    ensures Shape(k') && k'.pc == k.pc && k'.imemReq == k.imemReq
  {
    k.(regs := if RfWrEn(k, x) then k.regs[Rd(x.ins) := RfWrData(k, x, alu)] else k.regs,
       mem := if DmemWr(x.ins) then StoreData(k, x, alu) else k.mem,
       csr := Csr.Negedge(k.csr, x.irq, k.imemReq, k.pc, x.ins, alu))
  }

  function Negedge(k: Core, x: In): (k': Core)
    requires Shape(k)
    ensures Shape(k') && k'.pc == k.pc && k'.imemReq == k.imemReq
  {
    NegedgeWith(k, x, AluRes(k, x))
  }

  /** Rising edge: PC, fetch request and the trap-started flag, from the values after the falling
      edge. */
  function PosedgeWith(k: Core, x: In, alu: Word): (k': Core)
    requires Shape(k)
    ensures Shape(k')
  {
    k.(pc := if k.imemReq then NextPc(k, x, alu) else k.pc,
       imemReq := InstReq(k, x),
       csr := Csr.Posedge(k.csr, x.irq, k.imemReq, k.pc, x.ins))
  }

  function Posedge(k: Core, x: In): (k': Core)
    requires Shape(k)
    ensures Shape(k')
  {
    PosedgeWith(k, x, AluRes(k, x))
  }

  function Cycle(k: Core, x: In): (k': Core)
    requires Shape(k)
    ensures Shape(k')
  {
    Posedge(Negedge(k, x), x)
  }
}
