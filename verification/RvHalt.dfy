/** Where fetch stops (RISCV_SingleCycle/riscv_core.sv:264-281): the all-zero word that ends a program, and
    a whole program from the reset to its end. */
module RvHalt {
  import opened Bits
  import opened Decode
  import opened RvValues
  import opened RvUnits
  import opened RvRefine
  import opened RvRun
  import Memory
  import Csr
  import C = Core
  import Isa

  /** After a cycle fetch is on exactly if the PC was 0 or the word shown was not. */
  lemma FetchLaw(k: C.Core, x: C.In)
    requires C.Shape(k)
    ensures C.Cycle(k, x).imemReq <==> Val(k.pc) == 0 || Val(x.ins) != 0
  {
    ValZeroIff(x.ins);
    ValZeroIff(k.pc);
    AllZeroWord(k.pc);
  }

  lemma AllZeroWord(w: Word)
    ensures !OrAll(w) <==> w == Rep(32, false)
  {
    if !OrAll(w) {
      assert forall i :: 0 <= i < 32 ==> w[i] == Rep(32, false)[i];
    }
  }

  lemma StepAdds(k: C.Core, x: C.In, step: Word)
    requires step == [false, k.imemReq && !Is32Bit(x.ins), k.imemReq && Is32Bit(x.ins)] + Rep(29, false)
    ensures Val(C.NextPcDefault(k, x)) == Isa.Wrap(Val(k.pc) + Val(step))
  {
    AdderIs(k.pc, step);
  }

  lemma ThreeBits(b: bool, c: bool)
    ensures Val([false, b, c]) == 2 * B2N(b) + 4 * B2N(c)
  {
    assert [false, b, c][1..] == [b, c] && [b, c][1..] == [c] && [c][1..] == [];
    assert Val([c]) == B2N(c);
    assert Val([b, c]) == B2N(b) + 2 * Val([c]);
  }

  lemma LengthIs(ins: Word)
    ensures Is32Bit(ins) <==> Val(ins) % 4 == 3 || Val(ins) % 0x80 == 0
  {
    LowBits(ins);
    Powers();
    ValSplitDivMod(ins, 7);
    assert ins[..7] == ins[0..7];
    ValZeroIff(ins[0..7]);
  }

  /** Without a jump the PC moves by 4 for a word that ends in 11 or whose low seven bits are 0, by 2 for any
      other, and not at all while fetch is off. */
  lemma PcStep(k: C.Core, x: C.In)
    ensures Val(C.NextPcDefault(k, x))
         == Isa.Wrap(Val(k.pc) + if !k.imemReq then 0
                                 else if Val(x.ins) % 4 == 3 || Val(x.ins) % 0x80 == 0 then 4 else 2)
  {
    var low := [false, k.imemReq && !Is32Bit(x.ins), k.imemReq && Is32Bit(x.ins)];
    LengthIs(x.ins);
    ThreeBits(low[1], low[2]);
    ZeroExtendVal(low, 29);
    StepAdds(k, x, low + Rep(29, false));
  }

  // ----- the cycle that meets the zero word

  /** Nothing is enabled, nothing is requested, and the word is all zeros. */
  ghost predicate Idles(k: C.Core, x: C.In) {
    C.Shape(k) && x.ins == Rep(32, false) && Unpended(k.csr, x.irq) && !k.pc[0]
  }

  lemma ZeroWord(ins: Word)
    requires ins == Rep(32, false)
    ensures Opcode(ins) == 0 && Rd(ins) == 0 && Is32Bit(ins) && !OrAll(ins)
  {
    ZeroFields(ins);
    ValZeroIff(ins[0..7]);
  }

  lemma IdleSignals(k: C.Core, x: C.In)
    requires Idles(k, x)
    ensures !Csr.Request(k.csr, x.irq, k.imemReq, k.pc, x.ins) && !C.Stop(x) && !CType(x.ins)
    ensures !RfEn(x.ins) || Rd(x.ins) == 0
    ensures !DmemWr(x.ins) && !PcSel(x.ins) && !BType(x.ins)
  {
    ZeroWord(x.ins);
  }

  lemma IdleFalls(k: C.Core, x: C.In, alu: Word)
    requires Idles(k, x)
    ensures C.NegedgeWith(k, x, alu) == k
  {
    IdleSignals(k, x);
  }

  lemma IdleRises(k: C.Core, x: C.In, alu: Word)
    requires Idles(k, x)
    ensures C.PosedgeWith(k, x, alu)
         == k.(pc := if k.imemReq then C.NextPcDefault(k, x) else k.pc, imemReq := C.InstReq(k, x),
               csr := k.csr.(started := false))
  {
    IdleSignals(k, x);
  }

  /** What such a cycle does: registers and memory stay, and fetch is off unless the PC was 0; the PC moves
      on by 4 if fetch was on. */
  ghost predicate Idled(k: C.Core, k': C.Core) {
    && k'.regs == k.regs && k'.mem == k.mem && k'.csr == k.csr.(started := false)
    && (k'.imemReq <==> Val(k.pc) == 0)
    && Val(k'.pc) == if k.imemReq then Isa.Wrap(Val(k.pc) + 4) else Val(k.pc)
  }

  lemma IdleCycle(k: C.Core, x: C.In)
    requires Idles(k, x)
    ensures Idled(k, C.Cycle(k, x))
  {
    ValZeros(32);
    FetchLaw(k, x);
    ZeroWord(x.ins);
    IdleFalls(k, x, C.AluRes(k, x));
    IdleRises(k, x, C.AluRes(k, x));
    if k.imemReq {
      NextPcDefaultIs(k, x);
    }
  }

  /** Fetch is off, and not at the reset address. */
  ghost predicate Halted(k: C.Core, c: Csr.Csr) {
    C.Shape(k) && !k.imemReq && Val(k.pc) != 0 && !k.pc[0] && k.csr == c.(started := k.csr.started)
  }

  // ----- whole programs

  /** The word the instruction memory shows: with fetch off its latch holds the last one, and after a reset
      it holds 0. */
  function Shown(k: C.Core, imem: seq<Memory.Byte>, last: Word): Word {
    if k.imemReq then Fetch(imem, Val(k.pc)) else last
  }

  /** ks are the states of the core before each cycle and after the last, ws the words shown. */
  ghost predicate LatchRun(ks: seq<C.Core>, ws: seq<Word>, imem: seq<Memory.Byte>, env: seq<Env>) {
    |ks| == |env| + 1 && |ws| == |env| && forall n :: 0 <= n < |env| ==> LatchStep(ks, ws, imem, env, n)
  }

  ghost predicate LatchStep(ks: seq<C.Core>, ws: seq<Word>, imem: seq<Memory.Byte>, env: seq<Env>, n: nat)
    requires n < |env| && |ks| == |env| + 1 && |ws| == |env|
  {
    && C.Shape(ks[n])
    && ws[n] == Shown(ks[n], imem, if n == 0 then Rep(32, false) else ws[n - 1])
    && ks[n + 1] == C.Cycle(ks[n], C.In(ws[n], env[n].irq, env[n].dbus))
  }

  lemma BootStep(ks: seq<C.Core>, ws: seq<Word>, imem: seq<Memory.Byte>, env: seq<Env>)
    requires LatchRun(ks, ws, imem, env) && |env| > 0 && C.Reset(ks[0])
    ensures Running(ks[1], ks[0].csr) && Abs(ks[1]) == Boot(Numbers(ks[0].mem))
  {
    assert LatchStep(ks, ws, imem, env, 0);
    BootRuns(ks[0], C.In(ws[0], env[0].irq, env[0].dbus), ks[1]);
  }

  /** While fetch is on, the run is one of the transparent memory. */
  lemma ProgramStep(ks: seq<C.Core>, ws: seq<Word>, imem: seq<Memory.Byte>, env: seq<Env>, n: nat, c: Csr.Csr)
    requires LatchRun(ks, ws, imem, env) && n < |env|
    requires Running(ks[n], c) && Unpended(c, env[n].irq) && Smooth(Abs(ks[n]), Numbers(imem))
    ensures Abs(ks[n + 1]) == IsaNext(Abs(ks[n]), Numbers(imem)) && Running(ks[n + 1], c)
  {
    assert LatchStep(ks, ws, imem, env, n);
    OneStep(ks[n], imem, env[n], c);
  }

  /** ms is what the ISA makes of the program from the reset on, and its first n instructions are smooth. */
  ghost predicate Programmed(ms: seq<Isa.Machine>, imem: seq<int>, mem: seq<int>, n: nat) {
    && n < |ms| && IsaTrace(ms, imem) && ms[0] == Boot(mem)
    && forall j :: 0 <= j < n ==> SmoothOnly(ms, imem, j)
  }

  lemma {:induction false} ProgramRuns(ks: seq<C.Core>, ws: seq<Word>, ms: seq<Isa.Machine>,
                                       imem: seq<Memory.Byte>, env: seq<Env>, n: nat)
    requires LatchRun(ks, ws, imem, env) && C.Reset(ks[0]) && n < |env|
    requires Programmed(ms, Numbers(imem), Numbers(ks[0].mem), n)
    ensures Abs(ks[n + 1]) == ms[n] && Running(ks[n + 1], ks[0].csr)
  {
    if n == 0 {
      BootStep(ks, ws, imem, env);
    } else {
      ProgramRuns(ks, ws, ms, imem, env, n - 1);
      assert SmoothOnly(ms, Numbers(imem), n - 1) && IsaStep(ms, Numbers(imem), n - 1);
      ProgramStep(ks, ws, imem, env, n, ks[0].csr);
    }
  }

  /** The program ends at m: the word there is zero, and neither this nor the next address is 0. */
  ghost predicate EndsAt(m: Isa.Machine, imem: seq<Memory.Byte>) {
    0 < m.pc && m.pc + 4 < Isa.XMAX && Val(Fetch(imem, m.pc)) == 0
  }

  /** The core stands still behind the end of the program, with the registers and memory of m. */
  ghost predicate Stands(k: C.Core, m: Isa.Machine, c: Csr.Csr) {
    Halted(k, c) && Abs(k) == m.(pc := m.pc + 4)
  }

  lemma ZeroIs(w: Word)
    requires Val(w) == 0
    ensures w == Rep(32, false)
  {
    ValZeroIff(w);
    AllZeroWord(w);
  }

  lemma PcBehind(pc: int, w: Word)
    requires 0 < pc && pc + 4 < Isa.XMAX && pc % 4 == 0 && Val(w) == Isa.Wrap(pc + 4)
    ensures Val(w) == pc + 4 && !w[0]
  {
    LowBits(w);
  }

  lemma StopsFrom(k: C.Core, k': C.Core, m: Isa.Machine, c: Csr.Csr)
    requires Running(k, c) && Abs(k) == m && Idled(k, k') && C.Shape(k')
    requires 0 < m.pc && m.pc + 4 < Isa.XMAX
    ensures Stands(k', m, c)
  {
    PcBehind(Val(k.pc), k'.pc);
  }

  lemma StopsAt(k: C.Core, x: C.In, k': C.Core, m: Isa.Machine, c: Csr.Csr)
    requires Running(k, c) && Abs(k) == m && Idles(k, x) && k' == C.Cycle(k, x)
    requires 0 < m.pc && m.pc + 4 < Isa.XMAX
    ensures Stands(k', m, c)
  {
    IdleCycle(k, x);
    StopsFrom(k, k', m, c);
  }

  lemma StaysAt(k: C.Core, x: C.In, k': C.Core, m: Isa.Machine, c: Csr.Csr)
    requires Stands(k, m, c) && Idles(k, x) && k' == C.Cycle(k, x)
    ensures Stands(k', m, c)
  {
    IdleCycle(k, x);
    ValInjective(k'.pc, k.pc);
  }

  /** At time t the core stands still, and the memory goes on showing the zero word. */
  ghost predicate Ended(ks: seq<C.Core>, ws: seq<Word>, m: Isa.Machine, t: nat) {
    0 < t <= |ws| && t < |ks| && Stands(ks[t], m, ks[0].csr) && ws[t - 1] == Rep(32, false)
  }

  /** No interrupt gets through, whatever the lines are. */
  predicate Masked(c: Csr.Csr) { !c.mstatus[Csr.MIE] && !c.mstatus[Csr.MPIE] }

  lemma EndStep(ks: seq<C.Core>, ws: seq<Word>, imem: seq<Memory.Byte>, env: seq<Env>, n: nat, m: Isa.Machine)
    requires LatchRun(ks, ws, imem, env) && n < |env| && Masked(ks[0].csr)
    requires Running(ks[n], ks[0].csr) && Abs(ks[n]) == m && EndsAt(m, imem)
    ensures Ended(ks, ws, m, n + 1)
  {
    assert LatchStep(ks, ws, imem, env, n);
    ZeroIs(ws[n]);
    LowBits(ks[n].pc);
    StopsAt(ks[n], C.In(ws[n], env[n].irq, env[n].dbus), ks[n + 1], m, ks[0].csr);
  }

  lemma StandStep(ks: seq<C.Core>, ws: seq<Word>, imem: seq<Memory.Byte>, env: seq<Env>, n: nat, m: Isa.Machine)
    requires LatchRun(ks, ws, imem, env) && n < |env| && Masked(ks[0].csr) && Ended(ks, ws, m, n)
    ensures Ended(ks, ws, m, n + 1)
  {
    assert LatchStep(ks, ws, imem, env, n);
    StaysAt(ks[n], C.In(ws[n], env[n].irq, env[n].dbus), ks[n + 1], m, ks[0].csr);
  }

  /** Once it stands still it does so for ever. */
  lemma {:induction false} StandsOn(ks: seq<C.Core>, ws: seq<Word>, imem: seq<Memory.Byte>, env: seq<Env>,
                                    m: Isa.Machine, n: nat, t: nat)
    requires LatchRun(ks, ws, imem, env) && Masked(ks[0].csr) && Ended(ks, ws, m, n) && n <= t <= |env|
    ensures Ended(ks, ws, m, t)
  {
    if n < t {
      StandsOn(ks, ws, imem, env, m, n, t - 1);
      StandStep(ks, ws, imem, env, t - 1, m);
    }
  }

  lemma ResetMasks(k: C.Core)
    requires C.Reset(k)
    ensures Masked(k.csr)
  {
  }

  lemma EndsFrom(ks: seq<C.Core>, ws: seq<Word>, imem: seq<Memory.Byte>, env: seq<Env>, n: nat, t: nat,
                 m: Isa.Machine)
    requires LatchRun(ks, ws, imem, env) && n < t <= |env| && Masked(ks[0].csr)
    requires Running(ks[n], ks[0].csr) && Abs(ks[n]) == m && EndsAt(m, imem)
    ensures Ended(ks, ws, m, t)
  {
    EndStep(ks, ws, imem, env, n, m);
    StandsOn(ks, ws, imem, env, m, n + 1, t);
  }

  /** From the reset to the end.  One clock switches fetch on, one clock each executes the n instructions
      of the program in step with the ISA, one clock reads the zero word, and from then on, however long
      and whatever the interrupt lines do, PC, registers and memory are what the program has left. */
  lemma ProgramHalts(ks: seq<C.Core>, ws: seq<Word>, ms: seq<Isa.Machine>, imem: seq<Memory.Byte>,
                     env: seq<Env>, n: nat, t: nat)
    requires LatchRun(ks, ws, imem, env) && C.Reset(ks[0])
    requires Programmed(ms, Numbers(imem), Numbers(ks[0].mem), n)
    requires EndsAt(ms[n], imem) && n + 2 <= t <= |env|
    ensures Ended(ks, ws, ms[n], t)
  {
    ProgramRuns(ks, ws, ms, imem, env, n);
    ResetMasks(ks[0]);
    EndsFrom(ks, ws, imem, env, n + 1, t, ms[n]);
  }
}
