/** The instruction encoders of the test sequences (RISCV_SingleCycle/testbench/sequences.cpp,
    sequencer.cpp) and their round trips through the decoder.  A C integer is a 32-bit vector. */
module Encoder {
  import opened Bits
  import opened Decode

  // ----- C operators on 32-bit integers

  /** The constant with ones in bits lo .. hi-1. */
  function Mask(lo: nat, hi: nat): (m: Word)
    requires lo <= hi <= 32
    ensures forall i :: 0 <= i < 32 ==> m[i] == (lo <= i < hi)
  {
    Rep(lo, false) + Rep(hi - lo, true) + Rep(32 - hi, false)
  }

  /** a << k. */
  function Shl(a: Word, k: nat): (r: Word)
    requires k <= 32
    ensures forall i :: 0 <= i < 32 ==> r[i] == (i >= k && a[i - k])
  {
    Rep(k, false) + a[..32 - k]
  }

  /** a >> k, of a signed integer. */
  function Sar(a: Word, k: nat): (r: Word)
    requires k <= 32
    ensures forall i :: 0 <= i < 32 ==> r[i] == if i + k < 32 then a[i + k] else a[31]
  {
    a[k..] + Rep(k, a[31])
  }

  /** a + b, wrapping. */
  function Plus(a: Word, b: Word): Word { ToBits(32, Val(a) + Val(b)) }

  predicate Disjoint(a: Bits, b: Bits)
    requires |a| == |b|
  {
    forall i :: 0 <= i < |a| ==> !(a[i] && b[i])
  }

  lemma {:induction false} SumOfDisjoint(a: Bits, b: Bits)
    requires |a| == |b| && Disjoint(a, b)
    ensures Val(Or(a, b)) == Val(a) + Val(b)
  {
    if a != [] {
      SumOfDisjoint(a[1..], b[1..]);
      assert Or(a, b)[1..] == Or(a[1..], b[1..]);
    }
  }

  /** Adding fields that do not overlap is putting them together. */
  lemma PlusIsOr(a: Word, b: Word)
    requires Disjoint(a, b)
    ensures Plus(a, b) == Or(a, b)
  {
    SumOfDisjoint(a, b);
    ValToBits(Or(a, b));
  }

  /** The same for four fields. */
  lemma PlusFour(a: Word, b: Word, c: Word, d: Word)
    requires Disjoint(a, b) && Disjoint(Or(a, b), c) && Disjoint(Or(Or(a, b), c), d)
    ensures Plus(Plus(Plus(a, b), c), d) == Or(Or(Or(a, b), c), d)
  {
    PlusIsOr(a, b);
    PlusIsOr(Or(a, b), c);
    PlusIsOr(Or(Or(a, b), c), d);
  }

  /** a & (2^n - 1). */
  function Low(a: Word, n: nat): (r: Word)
    requires n <= 32
    ensures forall i :: 0 <= i < 32 ==> r[i] == (i < n && a[i])
  {
    And(a, Mask(0, n))
  }

  /** ((a & mask) >> lo) << to: bits lo .. hi-1 moved to start at bit to. */
  function Field(a: Word, lo: nat, hi: nat, to: nat): (r: Word)
    requires lo <= hi < 32 && to + hi - lo <= 32
    ensures forall i :: 0 <= i < 32 ==> r[i] == (to <= i < to + hi - lo && a[lo + i - to])
  {
    Shl(Sar(And(a, Mask(lo, hi)), lo), to)
  }

  /** All bits from n up are 0. */
  predicate Fits(a: Word, n: nat) { forall i :: n <= i < 32 ==> !a[i] }

  lemma OpcodeFits(op: nat)
    requires op < 0x80
    ensures Val(ToBits(32, op)) == op && Fits(ToBits(32, op), 7)
  {
    assert Pow2(7) == 0x80;
    Pow2Mono(7, 32);
    ToBitsVal(32, op);
    HighBitsClear(ToBits(32, op), 7);
  }

  lemma HighBitsClear(a: Word, n: nat)
    requires n <= 32 && Val(a) < Pow2(n)
    ensures Fits(a, n)
  {
    ToBitsVal(n, Val(a));
    ZeroExtendVal(ToBits(n, Val(a)), 32 - n);
    ValInjective(a, ToBits(n, Val(a)) + Rep(32 - n, false));
  }

  lemma FunctFits(f3: nat)
    requires f3 < 8
    ensures Val(ToBits(32, f3)) == f3 && Fits(ToBits(32, f3), 3)
  {
    assert Pow2(3) == 8;
    Pow2Mono(3, 32);
    ToBitsVal(32, f3);
    HighBitsClear(ToBits(32, f3), 3);
  }

  /** An integer constant: an opcode or a funct3 code. */
  function Code(n: nat): (c: Word)
    requires n < 0x80
    ensures Val(c) == n && Fits(c, 7) && (n < 8 ==> Fits(c, 3))
  {
    OpcodeFits(n);
    if n < 8 then FunctFits(n); ToBits(32, n) else ToBits(32, n)
  }

  // ----- the formats of sections 2.2 and 2.3 of the RISC-V Unprivileged ISA
  // imm holds offset / 2 in the two jump formats.

  function UFormat(op: Word, rd: Word, imm: Word): Word { op[..7] + rd[..5] + imm[..20] }

  function JFormat(op: Word, rd: Word, imm: Word): Word {
    op[..7] + rd[..5] + imm[11..19] + imm[10..11] + imm[..10] + imm[19..20]
  }

  function SFormat(op: Word, f3: Word, rs1: Word, rs2: Word, imm: Word): Word {
    op[..7] + imm[..5] + f3[..3] + rs1[..5] + rs2[..5] + imm[5..12]
  }

  function IFormat(op: Word, f3: Word, rd: Word, rs1: Word, imm: Word): Word {
    op[..7] + rd[..5] + f3[..3] + rs1[..5] + imm[..12]
  }

  function BFormat(op: Word, f3: Word, rs1: Word, rs2: Word, imm: Word): Word {
    op[..7] + imm[10..11] + imm[..4] + f3[..3] + rs1[..5] + rs2[..5] + imm[4..10] + imm[11..12]
  }

  function RFormat(op: Word, f3: Word, f7: Word, rd: Word, rs1: Word, rs2: Word): Word {
    op[..7] + rd[..5] + f3[..3] + rs1[..5] + rs2[..5] + f7[..7]
  }

  // ----- the encoders

  /** The queue of instructions; a zero word splits it. */
  class Sequencer {
    var fifo: seq<Word>
    var splits: nat

    method Push(val: Word)
      modifies this
      ensures fifo == old(fifo) + [val]
      ensures splits == old(splits) + if OrAll(val) then 0 else 1
    {
      fifo := fifo + [val];
      if !OrAll(val) {
        splits := splits + 1;
      }
    }
  }

  class UType {
    var value: Word
    var opcode: Word
    var rd: Word
    var imm: Word

    /** LUI and AUIPC. */
    method Upper(sqr: Sequencer)
      requires Fits(opcode, 7)
      modifies this, sqr
      ensures opcode == old(opcode) && rd == Low(old(rd), 5) && imm == Low(old(imm), 20)
      ensures value == UFormat(opcode, rd, imm) && sqr.fifo == old(sqr.fifo) + [value]
    {
      rd := And(rd, Mask(0, 5));
      imm := And(imm, Mask(0, 20));
      value := Or(Or(opcode, Shl(rd, 7)), Shl(imm, 12));
      sqr.Push(value);
    }

    /** The offset is shifted up, taken apart, and shifted back. */
    method Jal(sqr: Sequencer)
      modifies this, sqr
      ensures Val(opcode) == JAL && rd == Low(old(rd), 5) && imm == Low(old(imm), 20)
      ensures value == JFormat(opcode, rd, imm) && sqr.fifo == old(sqr.fifo) + [value]
    {
      opcode := Code(JAL);
      rd := And(rd, Mask(0, 5));
      imm := And(imm, Mask(0, 20));
      ghost var n := imm;
      imm := Shl(imm, 1);
      var newImm := Field(imm, 12, 20, 12);
      newImm := Plus(newImm, Field(imm, 11, 12, 20));
      newImm := Plus(newImm, Field(imm, 1, 11, 21));
      newImm := Plus(newImm, Field(imm, 20, 21, 31));
      JumpFields(n);
      value := Or(Or(opcode, Shl(rd, 7)), newImm);
      JumpWord(opcode, rd, n);
      imm := Sar(imm, 1);
      ShiftedBack(n, 20);
      sqr.Push(value);
    }
  }

  lemma ShiftedBack(n: Word, w: nat)
    requires Fits(n, w) && w < 31
    ensures Sar(Shl(n, 1), 1) == n
  {
  }

  /** imm[20|10:1|11|19:12], in place. */
  function JumpBits(n: Word): Word {
    Rep(12, false) + n[11..19] + n[10..11] + n[..10] + n[19..20]
  }

  lemma JumpFields(n: Word)
    requires Fits(n, 20)
    ensures var m := Shl(n, 1);
      Plus(Plus(Plus(Field(m, 12, 20, 12), Field(m, 11, 12, 20)), Field(m, 1, 11, 21)), Field(m, 20, 21, 31))
      == JumpBits(n)
  {
    var m := Shl(n, 1);
    var a, b, c, d := Field(m, 12, 20, 12), Field(m, 11, 12, 20), Field(m, 1, 11, 21), Field(m, 20, 21, 31);
    PlusFour(a, b, c, d);
    assert Or(Or(Or(a, b), c), d) == JumpBits(n);
  }

  lemma JumpWord(op: Word, rd: Word, n: Word)
    requires Fits(op, 7) && Fits(rd, 5)
    ensures Or(Or(op, Shl(rd, 7)), JumpBits(n)) == JFormat(op, rd, n)
  {
  }

  class SType {
    var value: Word
    var opcode: Word
    var funct3: Word
    var rs1: Word
    var rs2: Word
    var imm: Word

    method Encode(sqr: Sequencer)
      requires Fits(opcode, 7) && Fits(funct3, 3)
      modifies this, sqr
      ensures opcode == old(opcode) && funct3 == old(funct3)
      ensures rs1 == Low(old(rs1), 5) && rs2 == Low(old(rs2), 5) && imm == Low(old(imm), 12)
      ensures value == SFormat(opcode, funct3, rs1, rs2, imm) && sqr.fifo == old(sqr.fifo) + [value]
    {
      rs1 := And(rs1, Mask(0, 5));
      rs2 := And(rs2, Mask(0, 5));
      imm := And(imm, Mask(0, 12));
      value := Or(Or(opcode, Shl(And(imm, Mask(0, 5)), 7)), Shl(funct3, 12));
      value := Plus(value, Or(Or(Shl(rs1, 15), Shl(rs2, 20)), Shl(Sar(imm, 5), 25)));
      StoreWord(opcode, funct3, rs1, rs2, imm);
      sqr.Push(value);
    }
  }

  lemma StoreWord(op: Word, f3: Word, rs1: Word, rs2: Word, imm: Word)
    requires Fits(op, 7) && Fits(f3, 3) && Fits(rs1, 5) && Fits(rs2, 5) && Fits(imm, 12)
    ensures Plus(Or(Or(op, Shl(And(imm, Mask(0, 5)), 7)), Shl(f3, 12)),
                 Or(Or(Shl(rs1, 15), Shl(rs2, 20)), Shl(Sar(imm, 5), 25))) == SFormat(op, f3, rs1, rs2, imm)
  {
    var lower := Or(Or(op, Shl(And(imm, Mask(0, 5)), 7)), Shl(f3, 12));
    var upper := Or(Or(Shl(rs1, 15), Shl(rs2, 20)), Shl(Sar(imm, 5), 25));
    PlusIsOr(lower, upper);
    StoreParts(op, f3, rs1, rs2, imm, lower, upper);
  }

  lemma StoreParts(op: Word, f3: Word, rs1: Word, rs2: Word, imm: Word, lower: Word, upper: Word)
    requires Fits(op, 7) && Fits(f3, 3) && Fits(rs1, 5) && Fits(rs2, 5) && Fits(imm, 12)
    requires lower == Or(Or(op, Shl(And(imm, Mask(0, 5)), 7)), Shl(f3, 12))
    requires upper == Or(Or(Shl(rs1, 15), Shl(rs2, 20)), Shl(Sar(imm, 5), 25))
    ensures Or(lower, upper) == SFormat(op, f3, rs1, rs2, imm)
  {
    assert lower == op[..7] + imm[..5] + f3[..3] + Rep(17, false);
    assert upper == Rep(15, false) + rs1[..5] + rs2[..5] + imm[5..12];
  }

  class BType {
    var value: Word
    var opcode: Word
    var funct3: Word
    var rs1: Word
    var rs2: Word
    var imm: Word

    method Encode(sqr: Sequencer)
      requires Fits(opcode, 7) && Fits(funct3, 3)
      modifies this, sqr
      ensures opcode == old(opcode) && funct3 == old(funct3)
      ensures rs1 == Low(old(rs1), 5) && rs2 == Low(old(rs2), 5) && imm == Low(old(imm), 12)
      ensures value == BFormat(opcode, funct3, rs1, rs2, imm) && sqr.fifo == old(sqr.fifo) + [value]
    {
      rs1 := And(rs1, Mask(0, 5));
      rs2 := And(rs2, Mask(0, 5));
      imm := And(imm, Mask(0, 12));
      ghost var n := imm;
      imm := Shl(imm, 1);
      var newImm := Field(imm, 11, 12, 7);
      newImm := Plus(newImm, Field(imm, 1, 5, 8));
      newImm := Plus(newImm, Field(imm, 5, 11, 25));
      newImm := Plus(newImm, Field(imm, 12, 13, 31));
      BranchFields(n);
      value := Or(Or(Or(Or(opcode, Shl(funct3, 12)), Shl(rs1, 15)), Shl(rs2, 20)), newImm);
      BranchWord(opcode, funct3, rs1, rs2, n);
      imm := Sar(imm, 1);
      ShiftedBack(n, 12);
      sqr.Push(value);
    }
  }

  /** imm[12|10:5] and imm[4:1|11], in place. */
  function BranchBits(n: Word): Word {
    Rep(7, false) + n[10..11] + n[..4] + Rep(13, false) + n[4..10] + n[11..12]
  }

  lemma BranchFields(n: Word)
    requires Fits(n, 12)
    ensures var m := Shl(n, 1);
      Plus(Plus(Plus(Field(m, 11, 12, 7), Field(m, 1, 5, 8)), Field(m, 5, 11, 25)), Field(m, 12, 13, 31))
      == BranchBits(n)
  {
    var m := Shl(n, 1);
    var a, b, c, d := Field(m, 11, 12, 7), Field(m, 1, 5, 8), Field(m, 5, 11, 25), Field(m, 12, 13, 31);
    PlusFour(a, b, c, d);
    BranchParts(n, m, a, b, c, d);
  }

  lemma BranchParts(n: Word, m: Word, a: Word, b: Word, c: Word, d: Word)
    requires m == Shl(n, 1)
    requires a == Field(m, 11, 12, 7) && b == Field(m, 1, 5, 8) && c == Field(m, 5, 11, 25) && d == Field(m, 12, 13, 31)
    ensures Or(Or(Or(a, b), c), d) == BranchBits(n)
  {
    assert Or(a, b) == Rep(7, false) + n[10..11] + n[..4] + Rep(20, false);
    assert Or(c, d) == Rep(25, false) + n[4..10] + n[11..12];
  }

  lemma BranchWord(op: Word, f3: Word, rs1: Word, rs2: Word, n: Word)
    requires Fits(op, 7) && Fits(f3, 3) && Fits(rs1, 5) && Fits(rs2, 5)
    ensures Or(Or(Or(Or(op, Shl(f3, 12)), Shl(rs1, 15)), Shl(rs2, 20)), BranchBits(n)) == BFormat(op, f3, rs1, rs2, n)
  {
    var w := Or(Or(Or(op, Shl(f3, 12)), Shl(rs1, 15)), Shl(rs2, 20));
    assert w == op[..7] + Rep(5, false) + f3[..3] + rs1[..5] + rs2[..5] + Rep(7, false);
  }

  class RType {
    var value: Word
    var opcode: Word
    var funct3: Word
    var funct7: Word
    var rd: Word
    var rs1: Word
    var rs2: Word

    method Encode(sqr: Sequencer)
      requires Fits(opcode, 7) && Fits(funct3, 3)
      modifies this, sqr
      ensures opcode == old(opcode) && funct3 == old(funct3) && funct7 == old(funct7)
      ensures rd == Low(old(rd), 5) && rs1 == Low(old(rs1), 5) && rs2 == Low(old(rs2), 5)
      ensures value == RFormat(opcode, funct3, funct7, rd, rs1, rs2) && sqr.fifo == old(sqr.fifo) + [value]
    {
      rd := And(rd, Mask(0, 5));
      rs1 := And(rs1, Mask(0, 5));
      rs2 := And(rs2, Mask(0, 5));
      value := Or(Or(opcode, Shl(rd, 7)), Shl(funct3, 12));
      value := Plus(value, Or(Or(Shl(rs1, 15), Shl(rs2, 20)), Shl(funct7, 25)));
      RegisterWord(opcode, funct3, funct7, rd, rs1, rs2);
      sqr.Push(value);
    }
  }

  lemma RegisterWord(op: Word, f3: Word, f7: Word, rd: Word, rs1: Word, rs2: Word)
    requires Fits(op, 7) && Fits(f3, 3) && Fits(rd, 5) && Fits(rs1, 5) && Fits(rs2, 5)
    ensures Plus(Or(Or(op, Shl(rd, 7)), Shl(f3, 12)), Or(Or(Shl(rs1, 15), Shl(rs2, 20)), Shl(f7, 25)))
         == RFormat(op, f3, f7, rd, rs1, rs2)
  {
    var lower, upper := Or(Or(op, Shl(rd, 7)), Shl(f3, 12)), Or(Or(Shl(rs1, 15), Shl(rs2, 20)), Shl(f7, 25));
    assert lower == op[..7] + rd[..5] + f3[..3] + Rep(17, false);
    assert upper == Rep(15, false) + rs1[..5] + rs2[..5] + f7[..7];
    PlusIsOr(lower, upper);
  }

  class IType {
    var value: Word
    var opcode: Word
    var funct3: Word
    var rd: Word
    var rs1: Word
    var imm: Word

    /** bit30 selects SRAI; it is added, not or-ed. */
    method Encode(sqr: Sequencer, bit30: bool)
      requires Fits(opcode, 7) && Fits(funct3, 3)
      modifies this, sqr
      ensures opcode == old(opcode) && funct3 == old(funct3)
      ensures rd == Low(old(rd), 5) && rs1 == Low(old(rs1), 5) && imm == Low(old(imm), 12)
      ensures value == IFormat(opcode, funct3, rd, rs1, PlusBit10(imm, bit30))
      ensures sqr.fifo == old(sqr.fifo) + [value]
    {
      rs1 := And(rs1, Mask(0, 5));
      rd := And(rd, Mask(0, 5));
      imm := And(imm, Mask(0, 12));
      value := Or(Or(opcode, Shl(rd, 7)), Shl(funct3, 12));
      value := Plus(value, Or(Shl(rs1, 15), Shl(imm, 20)));
      ImmediateWord(opcode, funct3, rd, rs1, imm);
      AddBit30(value, bit30);
      BitAdded(opcode, funct3, rd, rs1, imm, bit30);
      value := Plus(value, Shl(ToBits(32, B2N(bit30)), 30));
      sqr.Push(value);
    }

    /** SLLI, SRLI and SRAI: the shift amount leaves no bit for the addition to collide with. */
    method Shift(sqr: Sequencer, code: nat, arithmetic: bool)
      requires code == 1 || code == 5
      modifies this, sqr
      ensures Val(opcode) == I_TYPE_ALU && Val(funct3) == code && Fits(opcode, 7) && Fits(funct3, 3)
      ensures rd == Low(old(rd), 5) && rs1 == Low(old(rs1), 5) && imm == Low(old(imm), 5)
      ensures value == IFormat(opcode, funct3, rd, rs1, ShiftField(imm, arithmetic))
      ensures sqr.fifo == old(sqr.fifo) + [value]
    {
      ShortShift(imm, arithmetic);
      SetShift(code);
      Encode(sqr, arithmetic);
    }

    method SetShift(code: nat)
      requires code < 8
      modifies this`opcode, this`funct3, this`imm
      ensures Val(opcode) == I_TYPE_ALU && Val(funct3) == code && Fits(opcode, 7) && Fits(funct3, 3)
      ensures imm == Low(old(imm), 5)
    {
      opcode := Code(I_TYPE_ALU);
      funct3 := Code(code);
      imm := And(imm, Mask(0, 5));
    }
  }

  /** The immediate field of a shift: the amount, and bit 10 for SRAI. */
  function ShiftField(amount: Word, arithmetic: bool): Word { amount[10 := arithmetic] }

  /** imm + 2^10, in 12 bits. */
  function PlusBit10(imm: Word, bit30: bool): Word {
    imm[..10] + [imm[10] != bit30, imm[11] != (imm[10] && bit30)] + imm[12..]
  }

  lemma ShortShift(imm: Word, bit30: bool)
    ensures var amount := Low(imm, 5);
      Low(amount, 12) == amount && PlusBit10(amount, bit30) == ShiftField(amount, bit30)
  {
  }

  lemma ImmediateWord(op: Word, f3: Word, rd: Word, rs1: Word, imm: Word)
    requires Fits(op, 7) && Fits(f3, 3) && Fits(rd, 5) && Fits(rs1, 5)
    ensures Plus(Or(Or(op, Shl(rd, 7)), Shl(f3, 12)), Or(Shl(rs1, 15), Shl(imm, 20))) == IFormat(op, f3, rd, rs1, imm)
  {
    var lower, upper := Or(Or(op, Shl(rd, 7)), Shl(f3, 12)), Or(Shl(rs1, 15), Shl(imm, 20));
    assert lower == op[..7] + rd[..5] + f3[..3] + Rep(17, false);
    assert upper == Rep(15, false) + rs1[..5] + imm[..12];
    PlusIsOr(lower, upper);
  }

  function TopChanged(w: Word, bit30: bool): Word {
    w[..30] + [w[30] != bit30, w[31] != (w[30] && bit30)]
  }

  /** Adding 2^30 to a word changes its two top bits only. */
  lemma AddBit30(w: Word, bit30: bool)
    ensures Plus(w, Shl(ToBits(32, B2N(bit30)), 30)) == TopChanged(w, bit30)
  {
    OpcodeFits(B2N(bit30));
    AddTop(w, Shl(ToBits(32, B2N(bit30)), 30), bit30);
  }

  lemma AddTop(w: Word, one: Word, b: bool)
    requires one == Rep(30, false) + [b, false]
    ensures Plus(w, one) == TopChanged(w, b)
  {
    var carry := B2N(w[30] && b);
    if carry == 1 {
      AddTopCarry(w[..30], w, one, TopChanged(w, b));
    } else {
      AddTopPlain(w, one, b);
    }
  }

  lemma AddTopPlain(w: Word, one: Word, b: bool)
    requires one == Rep(30, false) + [b, false] && !(w[30] && b)
    ensures Plus(w, one) == TopChanged(w, b)
  {
    PlusIsOr(w, one);
    assert Or(w, one) == TopChanged(w, b);
  }

  /** 1 + 1 in bit 30: the carry flips bit 31, and a carry out of that is lost. */
  lemma AddTopCarry(lo: Bits, w: Word, one: Word, r: Word)
    requires |lo| == 30 && w[..30] == lo && w[30] && r == lo + [false, !w[31]]
    requires one == Rep(30, false) + [true, false]
    ensures Plus(w, one) == r
  {
    assert w == lo + w[30..];
    CarryValue(lo, w[30..], [false, !w[31]], |lo|);
    IsToBits(r, Val(w) + Val(one), B2N(w[31]));
  }

  lemma CarryValue(lo: Bits, t: Bits, u: Bits, n: nat)
    requires n == |lo| && |t| == 2 && t[0] && u == [false, !t[1]]
    ensures Val(lo + t) + Val(Rep(n, false) + [true, false]) == Val(lo + u) + Scale(n + 2, B2N(t[1]))
  {
    ValAppend(lo, t);
    ValAppend(lo, u);
    ValAppend(Rep(n, false), [true, false]);
    ValZeros(n);
    TopValue(n, t, u);
  }

  lemma TopValue(n: nat, t: Bits, u: Bits)
    requires |t| == 2 && t[0] && u == [false, !t[1]]
    ensures Scale(n, Val(t)) + Scale(n, Val([true, false])) == Scale(n, Val(u)) + Scale(n + 2, B2N(t[1]))
  {
    TwoBits(t, u);
    ScaleAdd(n, Val(t), Val([true, false]));
    ScaleAdd(n, Val(u), 4 * B2N(t[1]));
    ScaleTwice(n, 2, B2N(t[1]));
  }

  lemma TwoBits(t: Bits, u: Bits)
    requires |t| == 2 && t[0] && u == [false, !t[1]]
    ensures Val(t) + Val([true, false]) == Val(u) + 4 * B2N(t[1]) && Scale(2, B2N(t[1])) == 4 * B2N(t[1])
  {
    var one := [true, false];
    assert t[1..][1..] == [] && u[1..][1..] == [] && one[1..][1..] == [];
    assert Val(one) == 1 && Val(t) == 1 + 2 * B2N(t[1]) && Val(u) == 2 * B2N(!t[1]);
  }

  lemma BitAdded(op: Word, f3: Word, rd: Word, rs1: Word, imm: Word, bit30: bool)
    ensures TopChanged(IFormat(op, f3, rd, rs1, imm), bit30) == IFormat(op, f3, rd, rs1, PlusBit10(imm, bit30))
  {
  }
}
