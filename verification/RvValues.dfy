/** From bit vectors to integers: the instruction fields, the immediates and the arithmetic unit,
    each as the ISA reads it. */
module RvValues {
  import opened Bits
  import opened Decode
  import Isa

  lemma Powers()
    ensures Pow2(1) == 2 && Pow2(3) == 8 && Pow2(4) == 0x10 && Pow2(5) == 0x20 && Pow2(6) == 0x40
    ensures Pow2(7) == 0x80 && Pow2(8) == 0x100 && Pow2(10) == 0x400 && Pow2(12) == 0x1000
    ensures Pow2(13) == 0x2000 && Pow2(15) == 0x8000 && Pow2(16) == 0x1_0000 && Pow2(20) == 0x10_0000
    ensures Pow2(21) == 0x20_0000 && Pow2(25) == 0x200_0000 && Pow2(31) == 0x8000_0000
    ensures Pow2(32) == 0x1_0000_0000
  {
    LowPowers();
    HighPowers();
  }

  lemma LowPowers()
    ensures Pow2(1) == 2 && Pow2(3) == 8 && Pow2(4) == 0x10 && Pow2(5) == 0x20 && Pow2(6) == 0x40
    ensures Pow2(7) == 0x80 && Pow2(8) == 0x100 && Pow2(10) == 0x400 && Pow2(12) == 0x1000
    ensures Pow2(13) == 0x2000 && Pow2(15) == 0x8000 && Pow2(16) == 0x1_0000
  {
    Doubled(0); Doubled(4); Doubled(8); Doubled(12);
  }

  lemma HighPowers()
    ensures Pow2(20) == 0x10_0000 && Pow2(21) == 0x20_0000 && Pow2(25) == 0x200_0000 && Pow2(31) == 0x8000_0000
    ensures Pow2(32) == 0x1_0000_0000
  {
    LowPowers();
    Doubled(16); Doubled(20); Doubled(24); Doubled(28);
  }

  lemma Doubled(n: nat)
    ensures Pow2(n + 1) == 2 * Pow2(n) && Pow2(n + 2) == 4 * Pow2(n)
    ensures Pow2(n + 3) == 8 * Pow2(n) && Pow2(n + 4) == 16 * Pow2(n)
  {
    assert Pow2(n + 2) == 2 * Pow2(n + 1);
    assert Pow2(n + 3) == 2 * Pow2(n + 2);
    assert Pow2(n + 4) == 2 * Pow2(n + 3);
  }

  lemma {:induction false} PowIsPow2(n: nat)
    ensures Isa.Pow(n) == Pow2(n)
  {
    if n > 0 {
      PowIsPow2(n - 1);
    }
  }

  /** A slice of a word is a quotient and a remainder. */
  lemma Slice(ins: Word, lo: nat, len: nat)
    requires lo + len <= 32
    ensures Val(ins[lo..lo + len]) == Isa.Bits(Val(ins), Pow2(lo), Pow2(len))
  {
    ValSplitDivMod(ins, lo);
    ValSplitDivMod(ins[lo..], len);
    assert ins[lo..][..len] == ins[lo..lo + len];
  }

  /** Register fields, funct3, funct7 and opcode. */
  lemma FieldsAre(ins: Word)
    requires Is32Bit(ins)
    ensures Opcode(ins) == Val(ins) % 0x80
    ensures Rd(ins) == Isa.Rd(Val(ins)) && Rs1(ins) == Isa.Rs1(Val(ins)) && Rs2(ins) == Isa.Rs2(Val(ins))
    ensures Funct3(ins) == Isa.F3(Val(ins)) && Val(ins[25..32]) == Isa.F7(Val(ins))
  {
    Powers();
    Slice(ins, 7, 5);
    Slice(ins, 12, 3);
    Slice(ins, 15, 5);
    Slice(ins, 20, 5);
    Slice(ins, 25, 7);
    ValSplitDivMod(ins, 7);
    assert ins[..7] == ins[0..7];
  }

  /** An encoding is a 32-bit one when its two low bits are set. */
  lemma Is32BitIff(ins: Word)
    ensures Val(ins) % 4 == 3 ==> Is32Bit(ins)
    ensures Opcode(ins) % 4 == 3 ==> Is32Bit(ins)
  {
    LowBits(ins);
    LowBits(ins[0..7]);
  }

  lemma LowBits(a: Bits)
    requires |a| >= 2
    ensures Val(a) % 4 == B2N(a[0]) + 2 * B2N(a[1])
  {
    var rest := a[1..];
    Mod4(B2N(a[0]) + 2 * B2N(rest[0]), Val(rest[1..]));
  }

  lemma Mod4(r: nat, q: int)
    requires r < 4
    ensures (r + 4 * q) % 4 == r
  {
  }

  /** The two's-complement value of a vector, in the ISA's terms. */
  lemma SValIsSigned(a: Bits)
    requires a != []
    ensures SVal(a) == Isa.Signed(Val(a), Pow2(|a|))
  {
    SValBound(a);
    ValBound(a);
  }

  /** Sign extension to a word, in the ISA's terms. */
  lemma ExtendedIs(a: Bits, w: Word)
    requires 0 < |a| <= 32 && w == a + Rep(32 - |a|, Msb(a))
    ensures SVal(w) == Isa.Signed(Val(a), Pow2(|a|))
  {
    SignExtendVal(a, 32 - |a|);
    SValIsSigned(a);
  }

  /** The unsigned value of a word is its signed value modulo 2^32. */
  lemma ValIsWrapped(w: Word)
    ensures Val(w) == Isa.Wrap(SVal(w))
    ensures 0 <= Val(w) < Isa.XMAX
  {
    Powers();
    ValBound(w);
  }

  // ----- immediates

  lemma ImmIIs(ins: Word)
    ensures SVal(ImmI(ins)) == Isa.ImmI(Val(ins))
  {
    Powers();
    Slice(ins, 20, 12);
    ExtendedIs(ins[20..32], ImmI(ins));
  }

  lemma Scales(x: int)
    ensures Scale(1, x) == 2 * x && Scale(4, x) == 0x10 * x && Scale(5, x) == 0x20 * x
    ensures Scale(6, x) == 0x40 * x && Scale(8, x) == 0x100 * x
    ensures Scale(10, x) == 0x400 * x && Scale(12, x) == 0x1000 * x
  {
    var a := Scale(4, x);
    assert Scale(1, x) == 2 * x && Scale(2, x) == 4 * x && Scale(3, x) == 8 * x && a == 16 * x;
    assert Scale(5, x) == 2 * a && Scale(6, x) == 4 * a && Scale(7, x) == 8 * a && Scale(8, x) == 16 * a;
    assert Scale(9, x) == 32 * a && Scale(10, x) == 64 * a && Scale(11, x) == 128 * a;
  }

  function SBits(ins: Word): Bits { ins[7..12] + ins[25..32] }

  lemma SBitsAre(ins: Word)
    ensures Val(SBits(ins)) == Isa.Rd(Val(ins)) + 0x20 * Isa.F7(Val(ins))
  {
    Powers();
    Slice(ins, 7, 5);
    Slice(ins, 25, 7);
    ValAppend(ins[7..12], ins[25..32]);
    Scales(Val(ins[25..32]));
  }

  lemma ImmSIs(ins: Word)
    ensures SVal(ImmS(ins)) == Isa.ImmS(Val(ins))
  {
    SBitsAre(ins);
    assert ImmS(ins) == SBits(ins) + Rep(20, Msb(SBits(ins)));
    ExtendedIs(SBits(ins), ImmS(ins));
    Powers();
  }

  /** A number put together from a zero bit and four fields. */
  function Pieces(p: Bits, q: Bits, r: Bits, s: Bits): Bits {
    [false] + (p + (q + (r + s)))
  }

  lemma PiecesVal(p: Bits, q: Bits, r: Bits, s: Bits)
    ensures Val(Pieces(p, q, r, s)) == 2 * (Val(p) + Scale(|p|, Val(q) + Scale(|q|, Val(r) + Scale(|r|, Val(s)))))
  {
    var t1, t2, t3 := r + s, q + (r + s), p + (q + (r + s));
    ValAppend(r, s);
    ValAppend(q, t1);
    ValAppend(p, t2);
    ZeroBelow(t3);
  }

  lemma ZeroBelow(a: Bits)
    ensures Val([false] + a) == 2 * Val(a)
  {
    assert ([false] + a)[1..] == a;
  }

  function BBits(ins: Word): Bits { Pieces(ins[8..12], ins[25..31], ins[7..8], ins[31..32]) }

  lemma BBitsAre(ins: Word)
    ensures var w := Val(ins);
      Val(BBits(ins)) == 2 * Isa.Bits(w, 0x100, 0x10) + 0x20 * Isa.Bits(w, 0x200_0000, 0x40)
                         + 0x800 * Isa.Bits(w, 0x80, 2) + 0x1000 * Isa.Bits(w, 0x8000_0000, 2)
  {
    Powers();
    Slice(ins, 8, 4);
    Slice(ins, 25, 6);
    Slice(ins, 7, 1);
    Slice(ins, 31, 1);
    BBitsVal(ins);
  }

  lemma BBitsVal(ins: Word)
    ensures Val(BBits(ins))
         == 2 * Val(ins[8..12]) + 0x20 * Val(ins[25..31]) + 0x800 * Val(ins[7..8]) + 0x1000 * Val(ins[31..32])
  {
    PiecesVal(ins[8..12], ins[25..31], ins[7..8], ins[31..32]);
    var x := Val(ins[7..8]) + Scale(1, Val(ins[31..32]));
    Scales(Val(ins[31..32]));
    Scales(x);
    Scales(Val(ins[25..31]) + Scale(6, x));
  }

  lemma ImmBIs(ins: Word)
    ensures SVal(ImmB(ins)) == Isa.ImmB(Val(ins))
  {
    BBitsAre(ins);
    assert ImmB(ins) == BBits(ins) + Rep(19, Msb(BBits(ins)));
    ExtendedIs(BBits(ins), ImmB(ins));
    Powers();
  }

  function JBits(ins: Word): Bits { Pieces(ins[21..31], ins[20..21], ins[12..20], ins[31..32]) }

  lemma JBitsAre(ins: Word)
    ensures var w := Val(ins);
      Val(JBits(ins)) == 2 * Isa.Bits(w, 0x20_0000, 0x400) + 0x800 * Isa.Bits(w, 0x10_0000, 2)
                         + 0x1000 * Isa.Bits(w, 0x1000, 0x100) + 0x10_0000 * Isa.Bits(w, 0x8000_0000, 2)
  {
    Powers();
    Slice(ins, 21, 10);
    Slice(ins, 20, 1);
    Slice(ins, 12, 8);
    Slice(ins, 31, 1);
    JBitsVal(ins);
  }

  lemma JBitsVal(ins: Word)
    ensures Val(JBits(ins))
         == 2 * Val(ins[21..31]) + 0x800 * Val(ins[20..21]) + 0x1000 * Val(ins[12..20]) + 0x10_0000 * Val(ins[31..32])
  {
    PiecesVal(ins[21..31], ins[20..21], ins[12..20], ins[31..32]);
    var x := Val(ins[12..20]) + Scale(8, Val(ins[31..32]));
    Scales(Val(ins[31..32]));
    Scales(x);
    Scales(Val(ins[20..21]) + Scale(1, x));
  }

  lemma ImmJIs(ins: Word)
    ensures SVal(ImmJ(ins)) == Isa.ImmJ(Val(ins))
  {
    JBitsAre(ins);
    assert ImmJ(ins) == JBits(ins) + Rep(11, Msb(JBits(ins)));
    ExtendedIs(JBits(ins), ImmJ(ins));
    Powers();
  }

  lemma ImmUIs(ins: Word)
    ensures Val(ImmU(ins)) == Isa.ImmU(Val(ins))
  {
    Powers();
    Slice(ins, 12, 20);
    ValAppend(Rep(12, false), ins[12..32]);
    ValZeros(12);
    Scales(Val(ins[12..32]));
  }
}
