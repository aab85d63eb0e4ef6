/** System instructions, CSR numbers and trap registers by their encodings, written out as numbers
    (RISCV_SingleCycle/risc_pkg.sv, csr.sv, decode.sv against the RISC-V manuals). */
module RvWords {
  import opened Bits
  import opened Decode
  import opened RvValues
  import Csr
  import C = Core
  import RvCsr
  import RvTrap

  // ----- words and fields

  /** A 32-bit word is put together from its fields. */
  lemma Composed(x: int)
    requires 0 <= x < 0x1_0000_0000
    ensures x == x % 0x80 + 0x80 * (x / 0x80 % 0x20) + 0x1000 * (x / 0x1000 % 8) + 0x8000 * (x / 0x8000 % 0x20)
                 + 0x10_0000 * (x / 0x10_0000)
  {
    Splits(x, 0x80, 0x20);
    Splits(x, 0x1000, 8);
    Splits(x, 0x8000, 0x20);
  }

  lemma Splits(x: int, m: nat, n: nat)
    requires m > 0 && n > 0 && 0 <= x
    ensures m * n > 0 && m * (x / m) == m * (x / m % n) + m * n * (x / (m * n))
    ensures x == x % m + m * (x / m)
  {
    var q := x / m;
    assert q == n * (q / n) + q % n;
    MulPositive(m, n);
    DivDiv(x, m, n);
    assert m * q == m * (n * (q / n)) + m * (q % n);
    assert m * (n * (q / n)) == m * n * (q / n);
  }

  lemma MulPositive(m: nat, n: nat)
    requires m > 0 && n > 0
    ensures m * n > 0
  {
  }

  lemma DivDiv(x: int, m: nat, n: nat)
    requires m > 0 && n > 0 && 0 <= x && m * n > 0
    ensures x / m / n == x / (m * n)
  {
    var q, r := x / m, x % m;
    var p, t := q / n, q % n;
    assert m * q == m * (n * p) + m * t;
    assert m * (n * p) == p * (m * n);
    Below(m, n, t, r);
    DivUnique(x, p, m * t + r, m * n);
  }

  lemma Below(m: nat, n: nat, t: int, r: int)
    requires 0 <= t < n && 0 <= r < m
    ensures 0 <= m * t + r < m * n
  {
    assert m * t <= m * (n - 1);
  }

  /** The I format: a word built from opcode, rd, funct3, rs1 and a 12-bit number. */
  function WordOf(a: nat, rs1: nat, f3: nat, rd: nat, op: nat): nat {
    0x10_0000 * a + 0x8000 * rs1 + 0x1000 * f3 + 0x80 * rd + op
  }

  lemma Peels(x: int, q: int, r: int, m: nat)
    requires m > 0 && 0 <= r < m && x == m * q + r
    ensures x / m == q && x % m == r
  {
    DivUnique(x, q, r, m);
  }

  lemma FieldsFrom(x: int, a: nat, rs1: nat, f3: nat, rd: nat, op: nat)
    requires a < 0x1000 && rs1 < 0x20 && f3 < 8 && rd < 0x20 && op < 0x80
    requires x == WordOf(a, rs1, f3, rd, op)
    ensures x % 0x80 == op && x / 0x80 % 0x20 == rd && x / 0x1000 % 8 == f3 && x / 0x8000 % 0x20 == rs1
    ensures x / 0x10_0000 == a
  {
    var x4 := 0x20 * a + rs1;
    var x3 := 8 * x4 + f3;
    var x2 := 0x20 * x3 + rd;
    Peels(x, x2, op, 0x80);
    Peels(x2, x3, rd, 0x20);
    Peels(x3, x4, f3, 8);
    Peels(x4, a, rs1, 0x20);
    DivDiv(x, 0x80, 0x20);
    DivDiv(x, 0x1000, 8);
    DivDiv(x, 0x8000, 0x20);
  }

  /** A word as its fields. */
  ghost predicate Holds(ins: Word, a: nat, rs1: nat, f3: nat, rd: nat) {
    Opcode(ins) == 0x73 && Is32Bit(ins) && Rd(ins) == rd && Funct3(ins) == f3 && Rs1(ins) == rs1
    && Val(ins[20..32]) == a
  }

  lemma SystemFields(ins: Word)
    requires Opcode(ins) == 0x73
    ensures Is32Bit(ins) && Val(ins) % 0x80 == 0x73 && Val(ins) / 0x80 % 0x20 == Rd(ins)
    ensures Val(ins) / 0x1000 % 8 == Funct3(ins) && Val(ins) / 0x8000 % 0x20 == Rs1(ins)
    ensures Val(ins) / 0x10_0000 == Val(ins[20..32]) && 0 <= Val(ins) < 0x1_0000_0000
  {
    Is32BitIff(ins);
    FieldsAre(ins);
    Powers();
    ValIsWrapped(ins);
    ValSplitDivMod(ins, 20);
    assert ins[20..] == ins[20..32];
  }

  /** A system word is determined by its fields. */
  lemma SystemValue(ins: Word)
    requires Opcode(ins) == 0x73
    ensures Val(ins) == WordOf(Val(ins[20..32]), Rs1(ins), Funct3(ins), Rd(ins), 0x73)
  {
    SystemFields(ins);
    Composed(Val(ins));
  }

  lemma OpcodeIs(ins: Word)
    ensures Opcode(ins) == Val(ins) % 0x80
  {
    Powers();
    ValSplitDivMod(ins, 7);
    assert ins[..7] == ins[0..7];
  }

  lemma SystemHolds(ins: Word, a: nat, rs1: nat, f3: nat, rd: nat)
    requires a < 0x1000 && rs1 < 0x20 && f3 < 8 && rd < 0x20 && Val(ins) == WordOf(a, rs1, f3, rd, 0x73)
    ensures Holds(ins, a, rs1, f3, rd)
  {
    FieldsFrom(Val(ins), a, rs1, f3, rd, 0x73);
    OpcodeIs(ins);
    SystemFields(ins);
  }

  lemma SysImmIs(ins: Word)
    requires Opcode(ins) == 0x73 && Funct3(ins) != 4
    ensures Csr.SysImm(ins) == Val(ins[20..32])
  {
    assert IType(ins);
    assert ImmI(ins)[0..12] == ins[20..32];
  }

  // ----- system instructions

  /** The word of a system instruction without registers is its number and the opcode. */
  lemma PlainSystem(ins: Word)
    ensures YType(ins) ==> Val(ins) == 0x10_0000 * Csr.SysImm(ins) + 0x73
  {
    if YType(ins) {
      SystemValue(ins);
      SysImmIs(ins);
    }
  }

  lemma PlainSystemFrom(ins: Word, a: nat)
    requires a < 0x1000 && Val(ins) == 0x10_0000 * a + 0x73
    ensures YType(ins) && Csr.SysImm(ins) == a
  {
    SystemHolds(ins, a, 0, 0, 0);
    SysImmIs(ins);
  }

  lemma PlainIff(ins: Word, a: nat)
    requires a < 0x1000
    ensures YType(ins) && Csr.SysImm(ins) == a <==> Val(ins) == 0x10_0000 * a + 0x73
  {
    PlainSystem(ins);
    if Val(ins) == 0x10_0000 * a + 0x73 {
      PlainSystemFrom(ins, a);
    }
  }

  /** Five system instructions are five words: ecall, ebreak, and the returns mret, sret and mnret. */
  lemma SystemWords(ins: Word)
    ensures Csr.IsEcall(ins) <==> Val(ins) == 0x0000_0073
    ensures Csr.IsBreak(ins) <==> Val(ins) == 0x0010_0073
    ensures Csr.IsReturn(ins) <==> Val(ins) == 0x3020_0073 || Val(ins) == 0x1020_0073 || Val(ins) == 0x7020_0073
  {
    PlainIff(ins, 0);
    PlainIff(ins, 1);
    PlainIff(ins, 0x302);
    PlainIff(ins, 0x102);
    PlainIff(ins, 0x702);
  }

  // ----- illegal words

  predicate CsrNumber(a: nat) {
    a == 0x300 || a == 0x304 || a == 0x305 || a == 0x340 || a == 0x341 || a == 0x342 || a == 0x344 || a == 0x34A
  }

  /** The opcodes that are taken whatever else the word says. */
  predicate PlainOpcode(op: nat) {
    || op == 0x03 || op == 0x13 || op == 0x17 || op == 0x1B || op == 0x23 || op == 0x33 || op == 0x37 || op == 0x3B
    || op == 0x67 || op == 0x6F
  }

  /** ecall, ebreak, sret, mret, mnret and wfi. */
  predicate PlainWord(x: nat) {
    || x == 0x0000_0073 || x == 0x0010_0073 || x == 0x1020_0073 || x == 0x3020_0073 || x == 0x7020_0073
    || x == 0x1050_0073
  }

  /** The words that csr.sv and decode.sv take: ten opcodes, the branches with a condition, six system words,
      and CSR instructions with one of eight numbers. */
  predicate Accepted(x: nat) {
    || PlainOpcode(x % 0x80)
    || (x % 0x80 == 0x63 && x / 0x1000 % 8 != 2 && x / 0x1000 % 8 != 3)
    || (x % 0x80 == 0x73 && x / 0x1000 % 8 != 0 && x / 0x1000 % 8 != 4 && CsrNumber(x / 0x10_0000))
    || PlainWord(x)
  }

  lemma PlainWordFields(x: nat)
    requires PlainWord(x)
    ensures x % 0x80 == 0x73 && x / 0x1000 % 8 == 0
  {
  }

  lemma KnownIs(op: nat)
    ensures Known(op) <==> PlainOpcode(op) || op == 0x63 || op == 0x73
  {
  }

  lemma AcceptedElsewhere(x: nat, op: nat)
    requires op == x % 0x80 && op != 0x73 && op != 0x63
    ensures Accepted(x) <==> PlainOpcode(op)
  {
    if PlainWord(x) {
      PlainWordFields(x);
    }
  }

  lemma IllegalElsewhere(ins: Word)
    requires Opcode(ins) != 0x73 && Opcode(ins) != 0x63
    ensures !CType(ins) && !YType(ins)
    ensures Illegal(ins) <==> !Accepted(Val(ins))
  {
    OpcodeIs(ins);
    KnownIs(Opcode(ins));
    AcceptedElsewhere(Val(ins), Opcode(ins));
  }

  lemma AcceptedBranch(x: nat, f3: nat)
    requires x % 0x80 == 0x63 && f3 == x / 0x1000 % 8
    ensures Accepted(x) <==> f3 != 2 && f3 != 3
  {
    if PlainWord(x) {
      PlainWordFields(x);
    }
  }

  lemma BranchFields(ins: Word)
    requires Opcode(ins) == 0x63
    ensures Funct3(ins) == Val(ins) / 0x1000 % 8
  {
    Is32BitIff(ins);
    FieldsAre(ins);
  }

  lemma BranchIllegal(ins: Word)
    requires Opcode(ins) == 0x63
    ensures !CType(ins) && !YType(ins)
    ensures Illegal(ins) <==> Funct3(ins) == 2 || Funct3(ins) == 3
  {
    KnownIs(0x63);
  }

  lemma IllegalBranch(ins: Word)
    requires Opcode(ins) == 0x63
    ensures !CType(ins) && !YType(ins)
    ensures Illegal(ins) <==> !Accepted(Val(ins))
  {
    OpcodeIs(ins);
    BranchFields(ins);
    BranchIllegal(ins);
    AcceptedBranch(Val(ins), Funct3(ins));
  }

  lemma AcceptedCsr(x: nat, f3: nat)
    requires x % 0x80 == 0x73 && f3 == x / 0x1000 % 8 && f3 != 0
    ensures Accepted(x) <==> f3 != 4 && CsrNumber(x / 0x10_0000)
  {
    if PlainWord(x) {
      PlainWordFields(x);
    }
  }

  lemma IllegalField(ins: Word)
    requires Opcode(ins) == 0x73 && Funct3(ins) != 0
    ensures Illegal(ins) || Csr.IllegalSys(ins) <==> Funct3(ins) == 4 || !Csr.KnownCsr(Csr.SysImm(ins))
  {
  }

  lemma IllegalCsr(ins: Word)
    requires Opcode(ins) == 0x73 && Funct3(ins) != 0
    ensures Illegal(ins) || Csr.IllegalSys(ins) <==> !Accepted(Val(ins))
  {
    SystemFields(ins);
    AcceptedCsr(Val(ins), Funct3(ins));
    IllegalField(ins);
    if Funct3(ins) != 4 {
      SysImmIs(ins);
    }
  }

  lemma AcceptedSystem(x: nat)
    requires x % 0x80 == 0x73 && x / 0x1000 % 8 == 0
    ensures Accepted(x) <==> PlainWord(x)
  {
  }

  lemma PlainWords(ins: Word)
    ensures PlainWord(Val(ins)) <==> Csr.IsEcall(ins) || Csr.IsBreak(ins) || Csr.IsReturn(ins)
                                     || (YType(ins) && Csr.SysImm(ins) == Csr.WFI)
  {
    SystemWords(ins);
    PlainIff(ins, 0x105);
  }

  lemma SystemTaken(ins: Word)
    requires Opcode(ins) == 0x73 && Funct3(ins) == 0
    ensures Illegal(ins) || Csr.IllegalSys(ins)
      <==> !(Csr.IsEcall(ins) || Csr.IsBreak(ins) || Csr.IsReturn(ins) || (YType(ins) && Csr.SysImm(ins) == Csr.WFI))
  {
  }

  lemma IllegalSystem(ins: Word)
    requires Opcode(ins) == 0x73 && Funct3(ins) == 0
    ensures Illegal(ins) || Csr.IllegalSys(ins) <==> !Accepted(Val(ins))
  {
    SystemFields(ins);
    AcceptedSystem(Val(ins));
    PlainWords(ins);
    SystemTaken(ins);
  }

  /** With fetch on, a word is illegal if and only if it is neither all zeros nor one of these. */
  lemma IllegalWords(ins: Word)
    ensures Csr.IllegalAck(true, ins) <==> Val(ins) != 0 && !Accepted(Val(ins))
  {
    ValZeroIff(ins);
    if Opcode(ins) == 0x73 {
      if Funct3(ins) == 0 {
        IllegalSystem(ins);
      } else {
        IllegalCsr(ins);
      }
      SystemIsNonZero(ins);
    } else if Opcode(ins) == 0x63 {
      IllegalBranch(ins);
    } else {
      IllegalElsewhere(ins);
    }
  }

  lemma SystemIsNonZero(ins: Word)
    requires Opcode(ins) == 0x73
    ensures OrAll(ins)
  {
    OpcodeIs(ins);
    ValZeroIff(ins);
  }

  /** Where the value for rd comes from: the immediate for lui, the PC for jal and jalr, the memory for loads
      and the floating-point loads, otherwise the arithmetic unit. */
  lemma Sources(ins: Word)
    ensures var op := Val(ins) % 0x80;
      && (RfSelect(ins).FromImm? <==> op == 0x37)
      && (RfSelect(ins).FromPc? <==> op == 0x6F || op == 0x67)
      && (RfSelect(ins).FromMem? <==> op == 0x03 || op == 0x07)
      && (RfEn(ins) <==> op != 0x23 && op != 0x63)
  {
    OpcodeIs(ins);
  }

  // ----- traps in numbers

  /** Entry and return move bit 3 of mstatus (MIE) to bit 7 (MPIE) and back. */
  lemma StackBits(m: Word)
    ensures Csr.Enter(m) == m[7 := m[3]][3 := false] && Csr.Leave(m) == m[3 := m[7]][7 := false]
  {
  }

  /** What a trap records: mepc, mtinst, the exception code with bit 31 clear, and the old MIE in bit 7. */
  ghost predicate Recorded(k: C.Core, ins: Word, k': C.Core, code: nat) {
    && k'.csr.mepc == k.pc && k'.csr.mtinst == ins && Val(k'.csr.mcause) == code
    && k'.csr.mstatus == k.csr.mstatus[7 := k.csr.mstatus[3]][3 := false]
    && k'.regs == k.regs && k'.mem == k.mem
  }

  lemma CauseValue(n: nat, code: nat)
    requires code < Pow2(n)
    ensures Val(ToBits(n, code) + [false]) == code
  {
    ToBitsVal(n, code);
    ZeroExtendVal(ToBits(n, code), 1);
    assert Rep(1, false) == [false];
  }

  lemma EntryRecords(k: C.Core, x: C.In, code: nat)
    requires RvTrap.Traps(k, x) && code == RvTrap.CodeOf(x.ins)
    ensures Recorded(k, x.ins, C.Cycle(k, x), code)
  {
    RvTrap.EntryCycle(k, x);
    StackBits(k.csr.mstatus);
    Powers();
    CauseValue(31, code);
  }

  /** Fetch on, PC even, no line let through, no request in the cycle before. */
  ghost predicate Calm(k: C.Core, x: C.In) {
    C.Shape(k) && k.imemReq && !k.pc[0] && !Csr.Interrupt(k.csr, x.irq, x.ins) && !k.csr.started
  }

  /** The word decides about the trap and its code: 11 for ecall, 3 for ebreak, 2 for a word that is neither
      all zeros nor accepted. */
  lemma TrapWords(k: C.Core, x: C.In)
    requires Calm(k, x)
    ensures Val(x.ins) == 0x0000_0073 ==> Recorded(k, x.ins, C.Cycle(k, x), 11)
    ensures Val(x.ins) == 0x0010_0073 ==> Recorded(k, x.ins, C.Cycle(k, x), 3)
    ensures Val(x.ins) != 0 && !Accepted(Val(x.ins)) ==> Recorded(k, x.ins, C.Cycle(k, x), 2)
  {
    SystemWords(x.ins);
    IllegalWords(x.ins);
    if RvTrap.Traps(k, x) {
      EntryRecords(k, x, RvTrap.CodeOf(x.ins));
    }
  }

  /** p resumed, in numbers. */
  ghost predicate Back(k: C.Core, k': C.Core) {
    && Val(k'.pc) == (Val(k.pc) + 4) % 0x1_0000_0000
    && k'.csr.mstatus == k.csr.mstatus[7 := false] && !k'.csr.started
  }

  lemma ResumedIsBack(k: C.Core, k': C.Core)
    requires RvTrap.Resumed(k, k')
    ensures Back(k, k')
  {
  }

  /** A trap, any handler, and the word of mret: the program goes on at p + 4, and mstatus is what it was
      with bit 7 cleared. */
  lemma MretResumes(ks: seq<C.Core>, xs: seq<C.In>, n: nat)
    requires RvTrap.Run(ks, xs) && 1 <= n < |xs| && RvTrap.Traps(ks[0], xs[0])
    requires forall j :: 1 <= j < n ==> RvTrap.HandledAt(ks, xs, j)
    requires Val(xs[n].ins) == 0x3020_0073 && ks[n].imemReq
    ensures Back(ks[0], ks[n + 1])
  {
    MretStops(xs[n]);
    RvTrap.TrapRoundTrip(ks, xs, n);
    ResumedIsBack(ks[0], ks[n + 1]);
  }

  lemma MretStops(x: C.In)
    requires Val(x.ins) == 0x3020_0073
    ensures C.Stop(x)
  {
    SystemWords(x.ins);
  }

  // ----- CSRs by number

  /** The register with a number. */
  function Numbered(c: Csr.Csr, a: nat): Word {
    match a
    case 0x300 => c.mstatus
    case 0x304 => c.mie
    case 0x305 => c.mtvec
    case 0x340 => c.mscratch
    case 0x341 => c.mepc
    case 0x342 => c.mcause
    case 0x344 => c.mip
    case _ => c.mtinst
  }

  lemma NumberedIs(c: Csr.Csr, a: nat)
    ensures Csr.KnownCsr(a) <==> CsrNumber(a)
    ensures CsrNumber(a) ==> RvCsr.Register(c, a) == Numbered(c, a)
  {
  }

  lemma CsrWord(k: C.Core, x: C.In, a: nat, rs1: nat, f3: nat, rd: nat)
    requires C.Valid(k) && Calm(k, x) && CsrNumber(a) && rs1 < 0x20 && f3 < 8 && rd < 0x20 && f3 != 0 && f3 != 4
    requires Val(x.ins) == WordOf(a, rs1, f3, rd, 0x73)
    ensures RvCsr.Accesses(k, x) && Csr.SysImm(x.ins) == a && Holds(x.ins, a, rs1, f3, rd)
  {
    SystemHolds(x.ins, a, rs1, f3, rd);
    SysImmIs(x.ins);
  }

  /** csrrs rd, a, x0 puts the register with number a into rd, and leaves it alone. */
  lemma CsrReads(k: C.Core, x: C.In, a: nat, rd: nat)
    requires C.Valid(k) && Calm(k, x) && CsrNumber(a) && 0 < rd < 0x20
    requires Val(x.ins) == WordOf(a, 0, 2, rd, 0x73)
    ensures C.Cycle(k, x).regs == k.regs[rd := Numbered(k.csr, a)]
    ensures Numbered(C.Cycle(k, x).csr, a) == Numbered(k.csr, a)
  {
    CsrWord(k, x, a, 0, 2, rd);
    NumberedIs(k.csr, a);
    NumberedIs(C.Cycle(k, x).csr, a);
    RvCsr.CsrAccess(k, x, C.Cycle(k, x), a);
    RvCsr.NothingWritten(k, x, C.Cycle(k, x), a);
  }

  /** csrrw x0, a, rs1 puts rs1 into the register with number a, but for bits 7 and 11 of mip. */
  lemma CsrWrites(k: C.Core, x: C.In, a: nat, rs1: nat)
    requires C.Valid(k) && Calm(k, x) && CsrNumber(a) && 0 < rs1 < 0x20
    requires Val(x.ins) == WordOf(a, rs1, 1, 0, 0x73)
    ensures Numbered(C.Cycle(k, x).csr, a)
         == if a == 0x344 then k.regs[rs1][11 := k.csr.mip[11]][7 := k.csr.mip[7]] else k.regs[rs1]
  {
    CsrWord(k, x, a, rs1, 1, 0);
    NumberedIs(k.csr, a);
    NumberedIs(C.Cycle(k, x).csr, a);
    RvCsr.CsrAccess(k, x, C.Cycle(k, x), a);
  }

  /** The words that write the register with number a: CSR instructions with a source other than 0. */
  lemma WritesWords(ins: Word, a: nat)
    ensures var x := Val(ins);
      Csr.Writes(ins, a)
      <==> x % 0x80 == 0x73 && x / 0x1000 % 8 != 0 && x / 0x1000 % 8 != 4 && x / 0x8000 % 0x20 != 0
           && x / 0x10_0000 == a
  {
    OpcodeIs(ins);
    if Opcode(ins) == 0x73 {
      SystemFields(ins);
      if Funct3(ins) != 4 {
        SysImmIs(ins);
      }
    }
  }

  /** After a reset traps go to 0x3DC, and nothing is enabled. */
  lemma ResetValues(k: C.Core)
    requires C.Reset(k)
    ensures Val(RvTrap.TrapBase(k.csr)) == 0x3DC && Val(k.csr.mtvec) == 0x3DC && Val(k.pc) == 0
    ensures Val(k.csr.mstatus) == 0 && Val(k.csr.mie) == 0
  {
    ZeroValue(k.pc);
    ZeroValue(k.csr.mstatus);
    ZeroValue(k.csr.mie);
    BaseValue(k.csr.mtvec);
  }

  lemma ZeroValue(w: Word)
    requires w == Rep(32, false)
    ensures Val(w) == 0
  {
    ValZeros(32);
  }

  lemma BaseValue(w: Word)
    requires Val(w) == 0x3DC
    ensures Val([false, false] + w[2..]) == 0x3DC
  {
    Aligned(w);
  }

  lemma Aligned(w: Word)
    requires Val(w) % 4 == 0
    ensures [false, false] + w[2..] == w
  {
    LowBits(w);
  }
}
