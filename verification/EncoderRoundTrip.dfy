/** What sequences.cpp encodes, decode.sv and the ISA read back: the same registers, the same
    function codes and the sign-extended immediate, for every field value. */
module EncoderRoundTrip {
  import opened Bits
  import opened Decode
  import opened Encoder
  import opened RvValues
  import Csr
  import Isa

  // ----- the hardware decoder

  lemma UDecodes(op: Word, rd: Word, imm: Word)
    ensures var w := UFormat(op, rd, imm);
      Opcode(w) == Val(op[..7]) && Rd(w) == Val(rd[..5]) && ImmU(w) == Rep(12, false) + imm[..20]
  {
    var w := UFormat(op, rd, imm);
    assert w[0..7] == op[..7] && w[7..12] == rd[..5] && w[12..32] == imm[..20];
  }

  lemma JDecodes(op: Word, rd: Word, imm: Word)
    ensures var w := JFormat(op, rd, imm);
      Opcode(w) == Val(op[..7]) && Rd(w) == Val(rd[..5]) && ImmJ(w) == [false] + imm[..20] + Rep(11, imm[19])
  {
    var w := JFormat(op, rd, imm);
    assert w[0..7] == op[..7] && w[7..12] == rd[..5];
    assert w[12..20] == imm[11..19] && w[20] == imm[10] && w[21..31] == imm[..10] && w[31] == imm[19];
    assert imm[..20] == imm[..10] + [imm[10]] + imm[11..19] + [imm[19]];
  }

  lemma IDecodes(op: Word, f3: Word, rd: Word, rs1: Word, imm: Word)
    ensures var w := IFormat(op, f3, rd, rs1, imm);
      && Opcode(w) == Val(op[..7]) && Rd(w) == Val(rd[..5]) && Rs1(w) == Val(rs1[..5])
      && (Is32Bit(w) ==> Funct3(w) == Val(f3[..3])) && ImmI(w) == imm[..12] + Rep(20, imm[11])
      && w[25..32] == imm[5..12] && w[20..25] == imm[..5]
  {
    var w := IFormat(op, f3, rd, rs1, imm);
    assert w[0..7] == op[..7] && w[7..12] == rd[..5] && w[12..15] == f3[..3] && w[15..20] == rs1[..5];
    assert w[20..32] == imm[..12];
  }

  lemma SDecodes(op: Word, f3: Word, rs1: Word, rs2: Word, imm: Word)
    ensures var w := SFormat(op, f3, rs1, rs2, imm);
      && Opcode(w) == Val(op[..7]) && Rs1(w) == Val(rs1[..5]) && Rs2(w) == Val(rs2[..5])
      && (Is32Bit(w) ==> Funct3(w) == Val(f3[..3])) && ImmS(w) == imm[..12] + Rep(20, imm[11])
  {
    var w := SFormat(op, f3, rs1, rs2, imm);
    assert w[0..7] == op[..7] && w[7..12] == imm[..5] && w[12..15] == f3[..3] && w[15..20] == rs1[..5];
    assert w[20..25] == rs2[..5] && w[25..32] == imm[5..12] && w[31] == imm[11];
    assert imm[..12] == imm[..5] + imm[5..12];
  }

  lemma BDecodes(op: Word, f3: Word, rs1: Word, rs2: Word, imm: Word)
    ensures var w := BFormat(op, f3, rs1, rs2, imm);
      && Opcode(w) == Val(op[..7]) && Rs1(w) == Val(rs1[..5]) && Rs2(w) == Val(rs2[..5])
      && (Is32Bit(w) ==> Funct3(w) == Val(f3[..3])) && ImmB(w) == [false] + imm[..12] + Rep(19, imm[11])
  {
    var w := BFormat(op, f3, rs1, rs2, imm);
    assert w[0..7] == op[..7] && w[12..15] == f3[..3] && w[15..20] == rs1[..5] && w[20..25] == rs2[..5];
    BranchImmediate(w, imm);
  }

  lemma BranchImmediate(w: Word, imm: Word)
    requires w[7..12] == imm[10..11] + imm[..4] && w[25..32] == imm[4..10] + imm[11..12]
    ensures ImmB(w) == [false] + imm[..12] + Rep(19, imm[11])
  {
    assert w[7] == w[7..12][0] && w[31] == w[25..32][6];
    assert w[8..12] == w[7..12][1..] && w[25..31] == w[25..32][..6];
    assert imm[..12] == imm[..4] + imm[4..10] + [imm[10]] + [imm[11]];
  }

  lemma RDecodes(op: Word, f3: Word, f7: Word, rd: Word, rs1: Word, rs2: Word)
    ensures var w := RFormat(op, f3, f7, rd, rs1, rs2);
      && Opcode(w) == Val(op[..7]) && Rd(w) == Val(rd[..5]) && Rs1(w) == Val(rs1[..5]) && Rs2(w) == Val(rs2[..5])
      && (Is32Bit(w) ==> Funct3(w) == Val(f3[..3])) && w[25..32] == f7[..7]
  {
    var w := RFormat(op, f3, f7, rd, rs1, rs2);
    assert w[0..7] == op[..7] && w[7..12] == rd[..5] && w[12..15] == f3[..3] && w[15..20] == rs1[..5];
    assert w[20..25] == rs2[..5] && w[25..32] == f7[..7];
  }

  // ----- values

  /** A field that fits is its own low part. */
  lemma LowVal(a: Word, n: nat)
    requires n <= 32 && Fits(a, n)
    ensures Val(a[..n]) == Val(a)
  {
    assert a == a[..n] + Rep(32 - n, false);
    ZeroExtendVal(a[..n], 32 - n);
  }

  /** A byte offset is twice the field that the assembler holds. */
  lemma Doubled(a: Bits, n: nat)
    requires a != []
    ensures SVal([false] + a + Rep(n, Msb(a))) == 2 * SVal(a)
  {
    SignExtendVal([false] + a, n);
    ZeroBelow(a);
  }

  lemma Plain(a: Bits, n: nat)
    requires a != []
    ensures SVal(a + Rep(n, Msb(a))) == SVal(a)
  {
    SignExtendVal(a, n);
  }

  lemma Raised(a: Bits)
    ensures Val(Rep(12, false) + a) == 0x1000 * Val(a)
  {
    ValAppend(Rep(12, false), a);
    ValZeros(12);
    Scales(Val(a));
  }

  // ----- the ISA

  /** LUI and AUIPC. */
  lemma UpperRoundTrip(op: Word, rd: Word, imm: Word)
    requires Val(op) in {LUI, AUIPC} && Fits(op, 7)
    ensures var w := UFormat(op, rd, imm);
      && Isa.Decode(Val(w)) == Isa.Some(if Val(op) == LUI then Isa.Lui(Val(rd[..5]), 0x1000 * Val(imm[..20]))
                                        else Isa.Auipc(Val(rd[..5]), 0x1000 * Val(imm[..20])))
      && Immediate(w) == Rep(12, false) + imm[..20]
  {
    var w := UFormat(op, rd, imm);
    UDecodes(op, rd, imm);
    LowVal(op, 7);
    Is32BitIff(w);
    FieldsAre(w);
    ImmUIs(w);
    Raised(imm[..20]);
  }

  lemma JalRoundTrip(op: Word, rd: Word, imm: Word)
    requires Val(op) == JAL && Fits(op, 7)
    ensures var w := JFormat(op, rd, imm);
      && Isa.Decode(Val(w)) == Isa.Some(Isa.Jal(Val(rd[..5]), 2 * SVal(imm[..20])))
      && Immediate(w) == [false] + imm[..20] + Rep(11, imm[19])
  {
    var w := JFormat(op, rd, imm);
    JDecodes(op, rd, imm);
    LowVal(op, 7);
    Is32BitIff(w);
    FieldsAre(w);
    ImmJIs(w);
    Doubled(imm[..20], 11);
  }

  lemma BranchRoundTrip(op: Word, f3: Word, rs1: Word, rs2: Word, imm: Word)
    requires Val(op) == B_TYPE && Fits(op, 7) && Fits(f3, 3) && Isa.DecodeCmp(Val(f3)).Some?
    ensures var w := BFormat(op, f3, rs1, rs2, imm);
      && Isa.Decode(Val(w)) == Isa.Some(Isa.Branch(Isa.DecodeCmp(Val(f3)).value, Val(rs1[..5]), Val(rs2[..5]),
                                                   2 * SVal(imm[..12])))
      && Immediate(w) == [false] + imm[..12] + Rep(19, imm[11])
  {
    var w := BFormat(op, f3, rs1, rs2, imm);
    BDecodes(op, f3, rs1, rs2, imm);
    LowVal(op, 7);
    LowVal(f3, 3);
    Is32BitIff(w);
    FieldsAre(w);
    ImmBIs(w);
    Doubled(imm[..12], 19);
  }

  lemma StoreRoundTrip(op: Word, f3: Word, rs1: Word, rs2: Word, imm: Word)
    requires Val(op) == S_TYPE && Fits(op, 7) && Fits(f3, 3) && Val(f3) < 3
    ensures var w := SFormat(op, f3, rs1, rs2, imm);
      && Isa.Decode(Val(w)) == Isa.Some(Isa.Store(if Val(f3) == 0 then 1 else if Val(f3) == 1 then 2 else 4,
                                                  Val(rs1[..5]), Val(rs2[..5]), SVal(imm[..12])))
      && Immediate(w) == imm[..12] + Rep(20, imm[11])
  {
    var w := SFormat(op, f3, rs1, rs2, imm);
    SDecodes(op, f3, rs1, rs2, imm);
    LowVal(op, 7);
    LowVal(f3, 3);
    Is32BitIff(w);
    FieldsAre(w);
    ImmSIs(w);
    Plain(imm[..12], 20);
  }

  lemma RegisterRoundTrip(op: Word, f3: Word, f7: Word, rd: Word, rs1: Word, rs2: Word)
    requires Val(op) == R_TYPE && Fits(op, 7) && Fits(f3, 3) && Isa.DecodeOp(Val(f3), Val(f7[..7])).Some?
    ensures Isa.Decode(Val(RFormat(op, f3, f7, rd, rs1, rs2)))
         == Isa.Some(Isa.Op(Isa.DecodeOp(Val(f3), Val(f7[..7])).value, Val(rd[..5]), Val(rs1[..5]), Val(rs2[..5])))
  {
    var w := RFormat(op, f3, f7, rd, rs1, rs2);
    RDecodes(op, f3, f7, rd, rs1, rs2);
    LowVal(op, 7);
    LowVal(f3, 3);
    Is32BitIff(w);
    FieldsAre(w);
  }

  /** What the ISA makes of an I-type word with the 12-bit immediate imm. */
  function Immediately(op: nat, f3: nat, rd: nat, rs1: nat, imm: Bits): Isa.Option<Isa.Instr>
    requires |imm| == 12
  {
    if op == JALR && f3 == 0 then Isa.Some(Isa.Jalr(rd, rs1, SVal(imm)))
    else if op == I_TYPE_LOAD && f3 in {0, 1, 2, 4, 5} then
      Isa.Some(Isa.Load(if f3 % 4 == 0 then 1 else if f3 % 4 == 1 then 2 else 4, f3 < 4, rd, rs1, SVal(imm)))
    else if op == I_TYPE_ALU && (f3 == 1 || f3 == 5) then
      match Isa.DecodeOp(f3, Val(imm[5..]))
      case Some(o) => Isa.Some(Isa.OpImm(o, rd, rs1, Val(imm[..5])))
      case None => Isa.None
    else if op == I_TYPE_ALU && f3 < 8 then Isa.Some(Isa.OpImm(Isa.DecodeOp(f3, 0).value, rd, rs1, SVal(imm)))
    else Isa.None
  }

  lemma IFields(op: Word, f3: Word, rd: Word, rs1: Word, imm: Word)
    requires Val(op) in {JALR, I_TYPE_LOAD, I_TYPE_ALU} && Fits(op, 7) && Fits(f3, 3)
    ensures var w := IFormat(op, f3, rd, rs1, imm);
      && Opcode(w) == Val(op) && Val(w) % 0x80 == Val(op) && Isa.F3(Val(w)) == Val(f3)
      && Isa.Rd(Val(w)) == Val(rd[..5]) && Isa.Rs1(Val(w)) == Val(rs1[..5])
      && Isa.Rs2(Val(w)) == Val(imm[..5]) && Isa.F7(Val(w)) == Val(imm[5..12])
  {
    var w := IFormat(op, f3, rd, rs1, imm);
    IDecodes(op, f3, rd, rs1, imm);
    LowVal(op, 7);
    LowVal(f3, 3);
    Is32BitIff(w);
    FieldsAre(w);
  }

  lemma IImmediate(op: Word, f3: Word, rd: Word, rs1: Word, imm: Word)
    ensures var w := IFormat(op, f3, rd, rs1, imm);
      ImmI(w) == imm[..12] + Rep(20, imm[11]) && Isa.ImmI(Val(w)) == SVal(imm[..12])
  {
    IDecodes(op, f3, rd, rs1, imm);
    ImmIIs(IFormat(op, f3, rd, rs1, imm));
    Plain(imm[..12], 20);
  }

  /** w carries these fields. */
  ghost predicate Carries(w: nat, op: nat, f3: nat, imm: Bits) {
    && w % 0x80 == op && Isa.F3(w) == f3 < 8
    && |imm| == 12 && Isa.Rs2(w) == Val(imm[..5]) && Isa.F7(w) == Val(imm[5..]) && Isa.ImmI(w) == SVal(imm)
  }

  lemma DecodesJalr(w: nat, f3: nat, imm: Bits)
    requires Carries(w, JALR, f3, imm)
    ensures Isa.Decode(w) == Immediately(JALR, f3, Isa.Rd(w), Isa.Rs1(w), imm)
  {
  }

  lemma DecodesLoad(w: nat, f3: nat, imm: Bits)
    requires Carries(w, I_TYPE_LOAD, f3, imm)
    ensures Isa.Decode(w) == Immediately(I_TYPE_LOAD, f3, Isa.Rd(w), Isa.Rs1(w), imm)
  {
  }

  lemma DecodesArithmetic(w: nat, f3: nat, imm: Bits)
    requires Carries(w, I_TYPE_ALU, f3, imm)
    ensures Isa.Decode(w) == Immediately(I_TYPE_ALU, f3, Isa.Rd(w), Isa.Rs1(w), imm)
  {
  }

  lemma DecodesImmediately(w: nat, op: nat, f3: nat, imm: Bits)
    requires op in {JALR, I_TYPE_LOAD, I_TYPE_ALU} && Carries(w, op, f3, imm)
    ensures Isa.Decode(w) == Immediately(op, f3, Isa.Rd(w), Isa.Rs1(w), imm)
  {
    if op == JALR {
      DecodesJalr(w, f3, imm);
    } else if op == I_TYPE_LOAD {
      DecodesLoad(w, f3, imm);
    } else {
      DecodesArithmetic(w, f3, imm);
    }
  }

  /** JALR, loads and all immediate arithmetic, with any immediate. */
  lemma ImmediateRoundTrip(op: Word, f3: Word, rd: Word, rs1: Word, imm: Word)
    requires Val(op) in {JALR, I_TYPE_LOAD, I_TYPE_ALU} && Fits(op, 7) && Fits(f3, 3)
    ensures var w := IFormat(op, f3, rd, rs1, imm);
      && Isa.Decode(Val(w)) == Immediately(Val(op), Val(f3), Val(rd[..5]), Val(rs1[..5]), imm[..12])
      && Immediate(w) == imm[..12] + Rep(20, imm[11])
  {
    IFields(op, f3, rd, rs1, imm);
    IImmediate(op, f3, rd, rs1, imm);
    assert imm[..12][..5] == imm[..5] && imm[..12][5..] == imm[5..12];
    DecodesImmediately(Val(IFormat(op, f3, rd, rs1, imm)), Val(op), Val(f3), imm[..12]);
  }

  /** SLLI, SRLI and SRAI with the amounts their encoders leave. */
  lemma ShiftRoundTrip(op: Word, f3: Word, rd: Word, rs1: Word, amount: Word, arithmetic: bool)
    requires Val(op) == I_TYPE_ALU && Fits(op, 7) && Fits(f3, 3) && Fits(amount, 5)
    requires Val(f3) == 5 || (Val(f3) == 1 && !arithmetic)
    ensures Isa.Decode(Val(IFormat(op, f3, rd, rs1, ShiftField(amount, arithmetic))))
         == Isa.Some(Isa.OpImm(if Val(f3) == 1 then Isa.SLL else if arithmetic then Isa.SRA else Isa.SRL,
                               Val(rd[..5]), Val(rs1[..5]), Val(amount)))
  {
    var imm := ShiftField(amount, arithmetic);
    ImmediateRoundTrip(op, f3, rd, rs1, imm);
    LowVal(amount, 5);
    assert imm[..12][..5] == amount[..5];
    ArithmeticBit(imm[..12][5..], arithmetic);
  }

  /** CSR and system instructions: the decoder finds the same registers, function code and
      address. */
  lemma SystemRoundTrip(op: Word, f3: Word, rd: Word, rs1: Word, imm: Word)
    requires Val(op) == SYSTEM && Fits(op, 7) && Fits(f3, 3) && Val(f3) != 4
    ensures var w := IFormat(op, f3, rd, rs1, imm);
      && Opcode(w) == SYSTEM && Funct3(w) == Val(f3) && Rd(w) == Val(rd[..5]) && Rs1(w) == Val(rs1[..5])
      && Csr.SysImm(w) == Val(imm[..12])
  {
    var w := IFormat(op, f3, rd, rs1, imm);
    IDecodes(op, f3, rd, rs1, imm);
    LowVal(op, 7);
    LowVal(f3, 3);
    Is32BitIff(w);
    assert ImmI(w)[0..12] == imm[..12];
  }

  lemma ArithmeticBit(f7: Bits, b: bool)
    requires |f7| == 7 && forall i :: 0 <= i < 7 ==> f7[i] == (b && i == 5)
    ensures Val(f7) == if b then 0x20 else 0
  {
    if b {
      assert f7 == Rep(5, false) + [true, false];
      ValAppend(Rep(5, false), [true, false]);
      ValZeros(5);
      Scales(1);
      assert [true, false][1..] == [false];
    } else {
      assert f7 == Rep(7, false);
      ValZeros(7);
    }
  }
}
