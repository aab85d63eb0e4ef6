/** Whole programs: from the instruction memory of riscv.sv, cycle after cycle. */
module RvRun {
  import opened Bits
  import opened Decode
  import opened RvValues
  import opened RvUnits
  import opened RvRefine
  import opened RvMain
  import Memory
  import Csr
  import C = Core
  import Isa

  /** What the surroundings do during one cycle. */
  datatype Env = Env(irq: Csr.Irq, dbus: Word)

  /** The instruction memory holds big-endian images. */
  function Fetch(imem: seq<Memory.Byte>, pc: nat): Word { Memory.Read(imem, pc, WORD, true) }

  /** The same for the ISA: four bytes, most significant first. */
  function IsaFetch(imem: seq<int>, pc: int): int {
    if 0 <= pc && pc + 4 <= |imem| then
      0x100 * (0x100 * (0x100 * imem[pc] + imem[pc + 1]) + imem[pc + 2]) + imem[pc + 3]
    else 0
  }

  lemma FetchIs(imem: seq<Memory.Byte>, pc: nat)
    requires pc + 4 <= |imem|
    ensures Val(Fetch(imem, pc)) == IsaFetch(Numbers(imem), pc)
  {
    BigStep(imem, pc, 4);
    BigStep(imem, pc + 1, 3);
    BigStep(imem, pc + 2, 2);
    BigStep(imem, pc + 3, 1);
    Collect(Val(imem[pc]), Val(imem[pc + 1]), Val(imem[pc + 2]), Val(imem[pc + 3]));
    ZeroExtendVal(Memory.Big(imem, pc, 4), 0);
  }

  lemma BigStep(mem: seq<Memory.Byte>, a: nat, n: nat)
    requires n >= 1 && a < |mem|
    ensures Val(Memory.Big(mem, a, n)) == Val(Memory.Big(mem, a + 1, n - 1)) + Scale(8 * (n - 1), Val(mem[a]))
  {
    ValAppend(Memory.Big(mem, a + 1, n - 1), mem[a]);
  }

  lemma Collect(a: int, b: int, c: int, d: int)
    ensures Scale(24, a) + Scale(16, b) + Scale(8, c) + Scale(0, d) == 0x100 * (0x100 * (0x100 * a + b) + c) + d
  {
    Scales(a);
    Scales(b);
    Scales(c);
    Scales(Scale(8, a));
    Scales(Scale(16, a));
    Scales(Scale(8, b));
    ScaleTwice(8, 8, a);
    ScaleTwice(8, 16, a);
    ScaleTwice(8, 8, b);
  }

  /** ks are the states of the core before each cycle and after the last, the instructions
      coming from imem. */
  ghost predicate CoreRun(ks: seq<C.Core>, imem: seq<Memory.Byte>, env: seq<Env>) {
    |ks| == |env| + 1 && forall n :: 0 <= n < |env| ==> CoreStep(ks, imem, env, n)
  }

  function Input(k: C.Core, imem: seq<Memory.Byte>, e: Env): C.In {
    C.In(Fetch(imem, Val(k.pc)), e.irq, e.dbus)
  }

  ghost predicate CoreStep(ks: seq<C.Core>, imem: seq<Memory.Byte>, env: seq<Env>, n: nat)
    requires n < |env| && |ks| == |env| + 1
  {
    C.Shape(ks[n]) && ks[n + 1] == C.Cycle(ks[n], Input(ks[n], imem, env[n]))
  }

  function IsaWord(imem: seq<int>, pc: int): nat {
    var w := IsaFetch(imem, pc);
    if w >= 0 then w else 0
  }

  /** ms are the machine states of the ISA before each instruction of the same program and after
      the last. */
  ghost predicate IsaTrace(ms: seq<Isa.Machine>, imem: seq<int>) {
    forall n :: 0 <= n < |ms| - 1 ==> IsaStep(ms, imem, n)
  }

  ghost predicate IsaStep(ms: seq<Isa.Machine>, imem: seq<int>, n: nat)
    requires n < |ms| - 1
  {
    ms[n + 1] == IsaNext(ms[n], imem)
  }

  /** The ISA's next state; it stops at anything that is not RV32I. */
  function IsaNext(m: Isa.Machine, imem: seq<int>): Isa.Machine {
    match Isa.Decode(IsaWord(imem, m.pc))
    case None => m
    case Some(i) => Isa.Step(m, i)
  }

  /** The next instruction is RV32I, raises no exception and is no JALR hazard. */
  ghost predicate Smooth(m: Isa.Machine, imem: seq<int>) {
    && 0 <= m.pc && m.pc + 4 <= |imem|
    && match Isa.Decode(IsaWord(imem, m.pc))
       case None => false
       case Some(i) => Isa.Fine(m, i) && !JalrHazard(m, i)
  }

  /** No pending line is enabled. */
  predicate Unpended(c: Csr.Csr, irq: Csr.Irq) {
    c.mstatus[Csr.MIE] || c.mstatus[Csr.MPIE] ==>
      !(c.mie[11] && irq.ex) && !(c.mie[3] && irq.sw) && !(c.mie[7] && irq.timer)
  }

  /** Ready for the next instruction; the trap registers are those of c. */
  ghost predicate Running(k: C.Core, c: Csr.Csr) {
    C.Valid(k) && k.imemReq && Val(k.pc) % 4 == 0 && k.csr == c.(started := k.csr.started)
  }

  lemma OneCycle(k: C.Core, x: C.In, i: Isa.Instr, c: Csr.Csr)
    requires Running(k, c) && Unpended(c, x.irq)
    requires Presents(x, i) && Isa.Fine(Abs(k), i) && !JalrHazard(Abs(k), i)
    ensures Abs(C.Cycle(k, x)) == Isa.Step(Abs(k), i) && Running(C.Cycle(k, x), c)
  {
    CycleRefines(k, x, i);
  }

  lemma OneStep(k: C.Core, imem: seq<Memory.Byte>, e: Env, c: Csr.Csr)
    requires Running(k, c) && Unpended(c, e.irq) && Smooth(Abs(k), Numbers(imem))
    ensures Abs(C.Cycle(k, Input(k, imem, e))) == IsaNext(Abs(k), Numbers(imem))
    ensures Running(C.Cycle(k, Input(k, imem, e)), c)
  {
    FetchIs(imem, Val(k.pc));
    OneCycle(k, Input(k, imem, e), Isa.Decode(IsaWord(Numbers(imem), Val(k.pc))).value, c);
  }

  /** Instruction number n is smooth, and no interrupt that c enables is pending. */
  ghost predicate SmoothAt(ms: seq<Isa.Machine>, imem: seq<int>, env: seq<Env>, c: Csr.Csr, n: nat)
    requires n < |env| && n < |ms|
  {
    Smooth(ms[n], imem) && Unpended(c, env[n].irq)
  }

  /** The core after n cycles shows what the ISA shows after n instructions. */
  ghost predicate InStep(ks: seq<C.Core>, ms: seq<Isa.Machine>, n: nat)
    requires n < |ks| && n < |ms|
  {
    Abs(ks[n]) == ms[n] && Running(ks[n], ks[0].csr)
  }

  lemma StepAt(ks: seq<C.Core>, ms: seq<Isa.Machine>, imem: seq<Memory.Byte>, env: seq<Env>, n: nat)
    requires CoreRun(ks, imem, env) && IsaTrace(ms, Numbers(imem)) && |ms| == |ks| && n < |env|
    requires InStep(ks, ms, n) && SmoothAt(ms, Numbers(imem), env, ks[0].csr, n)
    ensures InStep(ks, ms, n + 1)
  {
    assert CoreStep(ks, imem, env, n) && IsaStep(ms, Numbers(imem), n);
    OneStep(ks[n], imem, env[n], ks[0].csr);
  }

  /** For every program and every number of cycles the core and the ISA stay in step, as long as
      every instruction is smooth and no enabled interrupt is pending. */
  lemma {:induction false} ProgramRefines(ks: seq<C.Core>, ms: seq<Isa.Machine>, imem: seq<Memory.Byte>,
                                          env: seq<Env>, n: nat)
    requires CoreRun(ks, imem, env) && IsaTrace(ms, Numbers(imem)) && |ms| == |ks| && n <= |env|
    requires InStep(ks, ms, 0)
    requires forall j :: 0 <= j < n ==> SmoothAt(ms, Numbers(imem), env, ks[0].csr, j)
    ensures InStep(ks, ms, n)
  {
    if n > 0 {
      ProgramRefines(ks, ms, imem, env, n - 1);
      assert SmoothAt(ms, Numbers(imem), env, ks[0].csr, n - 1);
      StepAt(ks, ms, imem, env, n - 1);
    }
  }

  // ----- from the reset

  /** The machine state of the ISA at address 0 with all registers 0. */
  function Boot(mem: seq<int>): Isa.Machine { Isa.Machine(0, seq(32, _ => 0), mem) }

  lemma AllZero(regs: seq<Bits>, z: Bits)
    requires Val(z) == 0 && forall r :: 0 <= r < |regs| ==> regs[r] == z
    ensures Numbers(regs) == seq(|regs|, _ => 0)
  {
  }

  lemma BootIs(k: C.Core)
    requires C.Reset(k)
    ensures Abs(k) == Boot(Numbers(k.mem)) && C.Valid(k)
  {
    ValZeros(32);
    AllZero(k.regs, k.pc);
  }

  /** In the clock after the reset fetch is off and nothing has been read: the instruction is all zeros.
      That clock only switches fetch on, whatever the interrupt lines are. */
  lemma FirstClock(k: C.Core, x: C.In)
    requires C.Reset(k) && x.ins == Rep(32, false)
    ensures C.Cycle(k, x) == k.(imemReq := true)
  {
    FirstFalls(k, x, C.AluRes(k, x));
    FirstRises(k, x, C.AluRes(k, x));
  }

  lemma ZeroFields(ins: Word)
    requires ins == Rep(32, false)
    ensures Opcode(ins) == 0 && Rd(ins) == 0
  {
    ValZeros(7);
    ValZeros(5);
    assert ins[0..7] == Rep(7, false) && ins[7..12] == Rep(5, false);
  }

  lemma FirstFalls(k: C.Core, x: C.In, alu: Word)
    requires C.Reset(k) && x.ins == Rep(32, false)
    ensures C.NegedgeWith(k, x, alu) == k
  {
    ZeroFields(x.ins);
    FirstCsr(k, x, alu);
  }

  lemma FirstCsr(k: C.Core, x: C.In, alu: Word)
    requires !k.imemReq && Opcode(x.ins) == 0 && !k.csr.mstatus[Csr.MIE] && !k.csr.mstatus[Csr.MPIE]
    ensures Csr.Negedge(k.csr, x.irq, k.imemReq, k.pc, x.ins, alu) == k.csr
  {
  }

  lemma FirstRises(k: C.Core, x: C.In, alu: Word)
    requires C.Reset(k) && x.ins == Rep(32, false)
    ensures C.PosedgeWith(k, x, alu) == k.(imemReq := true)
  {
  }

  lemma BootRuns(k: C.Core, x: C.In, k': C.Core)
    requires C.Reset(k) && x.ins == Rep(32, false) && k' == C.Cycle(k, x)
    ensures Running(k', k.csr) && Abs(k') == Boot(Numbers(k.mem)) && k'.csr == k.csr
  {
    FirstClock(k, x);
    BootIs(k);
    ValZeros(32);
  }

  /** After a reset all interrupts are masked, so the lines do not matter. */
  ghost predicate SmoothOnly(ms: seq<Isa.Machine>, imem: seq<int>, n: nat)
    requires n < |ms|
  {
    Smooth(ms[n], imem)
  }

  /** From the reset on: one clock to switch fetch on, then one clock per instruction of the program at
      address 0, for as long as the instructions are smooth, whatever the interrupt lines do. */
  lemma BootRefines(k0: C.Core, x0: C.In, ks: seq<C.Core>, ms: seq<Isa.Machine>, imem: seq<Memory.Byte>,
                    env: seq<Env>, n: nat)
    requires C.Reset(k0) && x0.ins == Rep(32, false)
    requires CoreRun(ks, imem, env) && ks[0] == C.Cycle(k0, x0)
    requires IsaTrace(ms, Numbers(imem)) && |ms| == |ks| && n <= |env| && ms[0] == Boot(Numbers(k0.mem))
    requires forall j :: 0 <= j < n ==> SmoothOnly(ms, Numbers(imem), j)
    ensures Abs(ks[n]) == ms[n] && Running(ks[n], k0.csr)
  {
    BootRuns(k0, x0, ks[0]);
    forall j | 0 <= j < n ensures SmoothAt(ms, Numbers(imem), env, ks[0].csr, j) {
      assert SmoothOnly(ms, Numbers(imem), j);
    }
    ProgramRefines(ks, ms, imem, env, n);
  }
}
