/** The arithmetic unit, the PC adder and the data memory compute what the ISA asks for. */
module RvUnits {
  import opened Bits
  import opened Decode
  import opened RvValues
  import Adder
  import Alu
  import Shift
  import Memory
  import Isa

  /** Reducing to 32 bits is wrapping. */
  lemma ToBitsIsWrap(v: int)
    ensures Val(ToBits(32, v)) == Isa.Wrap(v)
  {
    Powers();
    ToBitsMod(32, v);
  }

  lemma ToBitsMod(n: nat, v: int)
    ensures Val(ToBits(n, v)) == v % Pow2(n)
  {
    var q := Quotient(n, v);
    ValBound(ToBits(n, v));
    ScaleDivMod(n, q, Val(ToBits(n, v)), v);
  }

  /** The hardware operation for an ISA operation. */
  function HwOp(op: Isa.AluOp): Alu.Op {
    match op
    case ADD => Alu.ADD
    case SUB => Alu.SUB
    case SLL => Alu.SLL
    case SLT => Alu.SLT
    case SLTU => Alu.SLTU
    case XOR => Alu.XOR
    case SRL => Alu.SRL
    case SRA => Alu.SRA
    case OR => Alu.OR
    case AND => Alu.AND
  }

  /** The gates of a bitwise operation, bit by bit. */
  function BitwiseGates(op: Isa.AluOp, a: Bits, b: Bits): (r: Bits)
    requires |a| == |b|
    ensures |r| == |a|
  {
    if op == Isa.XOR then Xor(a, b) else if op == Isa.OR then Or(a, b) else And(a, b)
  }

  lemma {:induction false} BitwiseIs(op: Isa.AluOp, a: Bits, b: Bits)
    requires |a| == |b|
    ensures Val(BitwiseGates(op, a, b)) == Isa.Bitwise(op, |a|, Val(a), Val(b))
  {
    if a != [] {
      BitwiseIs(op, a[1..], b[1..]);
      BitwiseTail(op, a, b);
    }
  }

  lemma BitwiseTail(op: Isa.AluOp, a: Bits, b: Bits)
    requires |a| == |b| >= 1
    ensures BitwiseGates(op, a, b)[1..] == BitwiseGates(op, a[1..], b[1..])
    ensures BitwiseGates(op, a, b)[0]
         == if op == Isa.XOR then a[0] != b[0] else if op == Isa.OR then a[0] || b[0] else a[0] && b[0]
  {
  }

  /** The shift count is the second operand modulo 32. */
  lemma ShiftCountIs(b: Word)
    ensures Val(Alu.ShiftCount(b)) == Val(b) % 32
  {
    Powers();
    assert Shift.Clog2(32) == 5;
    ValSplitDivMod(b, 5);
    ZeroExtendVal(b[..5], 1);
    assert Rep(1, false) == [false];
  }

  lemma LeftIs(a: Word, b: Word)
    ensures Val(Alu.DataFlow(Alu.SLL, a, b)) == Isa.Compute(Isa.SLL, Val(a), Val(b))
  {
    ShiftCountIs(b);
    PowIsPow2(Val(b) % 32);
    ToBitsIsWrap(Val(a) * Pow2(Val(b) % 32));
  }

  lemma SignedRightIs(a: Word, b: Word)
    ensures Val(Alu.DataFlow(Alu.SRA, a, b)) == Isa.Compute(Isa.SRA, Val(a), Val(b))
  {
    ShiftCountIs(b);
    PowIsPow2(Val(b) % 32);
    WordIsSigned(a);
    ToBitsIsWrap(SVal(a) / Pow2(Val(b) % 32));
  }

  lemma RightIs(a: Word, b: Word)
    ensures Val(Alu.DataFlow(Alu.SRL, a, b)) == Isa.Compute(Isa.SRL, Val(a), Val(b))
  {
    var c := Alu.ShiftCount(b);
    ShiftCountIs(b);
    PowIsPow2(Val(b) % 32);
    Shift.RightUnsigned(a, c);
    Alu.RightAgrees(false, a, c);
  }

  lemma WordIsSigned(a: Word)
    ensures SVal(a) == Isa.Signed(Val(a), Isa.XMAX)
  {
    Powers();
    SValIsSigned(a);
  }

  lemma CompareIs(a: Word, b: Word)
    ensures Val(Alu.DataFlow(Alu.SLT, a, b)) == Isa.Compute(Isa.SLT, Val(a), Val(b))
    ensures Val(Alu.DataFlow(Alu.SLTU, a, b)) == Isa.Compute(Isa.SLTU, Val(a), Val(b))
  {
    WordIsSigned(a);
    WordIsSigned(b);
    ToBitsIsWrap(if SVal(a) < SVal(b) then 1 else 0);
    ToBitsIsWrap(if Val(a) < Val(b) then 1 else 0);
  }

  lemma SumIs(a: Word, b: Word)
    ensures Val(Alu.DataFlow(Alu.ADD, a, b)) == Isa.Compute(Isa.ADD, Val(a), Val(b))
    ensures Val(Alu.DataFlow(Alu.SUB, a, b)) == Isa.Compute(Isa.SUB, Val(a), Val(b))
  {
    ToBitsIsWrap(Val(a) + Val(b));
    ToBitsIsWrap(Val(a) - Val(b));
  }

  lemma DataFlowIs(op: Isa.AluOp, a: Word, b: Word)
    ensures Val(Alu.DataFlow(HwOp(op), a, b)) == Isa.Compute(op, Val(a), Val(b))
  {
    match op
    case ADD => SumIs(a, b);
    case SUB => SumIs(a, b);
    case SLT => CompareIs(a, b);
    case SLTU => CompareIs(a, b);
    case SLL => LeftIs(a, b);
    case SRL => RightIs(a, b);
    case SRA => SignedRightIs(a, b);
    case _ => BitwiseIs(op, a, b);
  }

  /** The arithmetic unit, over gates, computes the ISA's operation. */
  lemma AluIs(op: Isa.AluOp, a: Word, b: Word)
    ensures Val(Alu.GateFlow(HwOp(op), a, b)) == Isa.Compute(op, Val(a), Val(b))
  {
    Alu.GateFlowIsDataFlow(HwOp(op), a, b);
    DataFlowIs(op, a, b);
  }

  /** The plain adder wraps too. */
  lemma AdderIs(a: Word, b: Word)
    ensures Val(Adder.Adder(false, a, b).sum) == Isa.Wrap(Val(a) + Val(b))
  {
    Adder.SumWraps(false, a, b);
    ToBitsIsWrap(Val(a) + Val(b));
  }

  /** Adding an immediate known up to multiples of 2^32. */
  lemma ImmediateSum(x: int, imm: Word, z: int)
    requires Isa.Wrap(SVal(imm)) == Isa.Wrap(z)
    ensures Isa.Wrap(x + Val(imm)) == Isa.Wrap(x + z)
  {
    ValIsWrapped(imm);
    WrapAdd(x, z);
  }

  lemma WrapAdd(x: int, y: int)
    ensures Isa.Wrap(x + Isa.Wrap(y)) == Isa.Wrap(x + y)
  {
  }

  /** The branch decision. */
  lemma BranchIs(cmp: Isa.Cmp, f3: nat, x: Word, y: Word)
    requires Isa.DecodeCmp(f3) == Isa.Some(cmp)
    ensures Alu.BranchGate(true, f3, x, y) == Isa.Holds(cmp, Val(x), Val(y))
  {
    Alu.BranchFormsAgree(true, f3, x, y);
    SValIsSigned(x);
    SValIsSigned(y);
    Powers();
  }

  // ----- data memory

  /** A memory or a register file as numbers. */
  function Numbers(cells: seq<Bits>): (r: seq<int>)
    ensures |r| == |cells|
  {
    seq(|cells|, i requires 0 <= i < |cells| => Val(cells[i]))
  }

  lemma {:induction false} LittleIs(mem: seq<Memory.Byte>, addr: nat, n: nat)
    ensures Val(Memory.Little(mem, addr, n)) == Isa.LoadBytes(Numbers(mem), addr, n)
    decreases n
  {
    if n > 0 {
      LittleIs(mem, addr + 1, n - 1);
      ValAppend(Memory.ByteAt(mem, addr), Memory.Little(mem, addr + 1, n - 1));
      Scales(Val(Memory.Little(mem, addr + 1, n - 1)));
      ValZeros(8);
    }
  }

  /** A load of n bytes, extended as asked. */
  lemma LoadIs(mem: seq<Memory.Byte>, addr: nat, size: nat, zeroEx: bool)
    requires addr <= |mem| && size in {BYTE, HALF, WORD} && (zeroEx ==> size != WORD)
    ensures var n := Memory.Bytes(size);
      var v := Isa.LoadBytes(Numbers(mem), addr, n);
      Val(Memory.SignExtend(size, zeroEx, Memory.Read(mem, addr, size, false)))
      == if zeroEx then v else Isa.Wrap(Isa.Signed(v, Isa.Pow(8 * n)))
  {
    var n := Memory.Bytes(size);
    var low := Memory.Little(mem, addr, n);
    var w := Memory.SignExtend(size, zeroEx, Memory.Read(mem, addr, size, false));
    LittleIs(mem, addr, n);
    if zeroEx {
      ZeroExtendVal(low, 32 - 8 * n);
    } else {
      PowIsPow2(8 * n);
      assert Memory.Read(mem, addr, size, false)[..8 * n] == low;
      assert w == low + Rep(32 - 8 * n, Msb(low));
      ExtendedIs(low, w);
      ValIsWrapped(w);
    }
  }

  lemma PokeIs(mem: seq<Memory.Byte>, a: nat, b: Memory.Byte)
    ensures Numbers(Memory.Poke(mem, a, b)) == if a < |mem| then Numbers(mem)[a := Val(b)] else Numbers(mem)
  {
  }

  /** The first byte of a store can be taken out instead of the last. */
  lemma {:induction false} WrittenFirst(mem: seq<Memory.Byte>, addr: nat, n: nat, data: Bits)
    requires n >= 1 && |data| >= 8 * n
    ensures Memory.Written(mem, addr, n, data)
         == Memory.Written(Memory.Poke(mem, addr, Memory.Lane(data, 0)), addr + 1, n - 1, data[8..])
  {
    if n > 1 {
      WrittenFirst(mem, addr, n - 1, data);
      assert Memory.Lane(data[8..], n - 2) == Memory.Lane(data, n - 1);
    } else {
      assert Memory.Written(mem, addr, 0, data) == mem;
    }
  }

  lemma {:induction false} WrittenIs(mem: seq<Memory.Byte>, addr: nat, n: nat, data: Bits)
    requires |data| >= 8 * n
    ensures Numbers(Memory.Written(mem, addr, n, data)) == Isa.StoreBytes(Numbers(mem), addr, n, Val(data))
    decreases n
  {
    if n > 0 {
      var mem1 := Memory.Poke(mem, addr, Memory.Lane(data, 0));
      WrittenFirst(mem, addr, n, data);
      WrittenIs(mem1, addr + 1, n - 1, data[8..]);
      PokeIs(mem, addr, Memory.Lane(data, 0));
      Powers();
      ValSplitDivMod(data, 8);
      assert Memory.Lane(data, 0) == data[..8];
    }
  }

  /** Only the low n bytes of the data matter. */
  lemma {:induction false} WrittenLow(mem: seq<Memory.Byte>, addr: nat, n: nat, d: Bits, e: Bits)
    requires |d| >= 8 * n && |e| >= 8 * n && d[..8 * n] == e[..8 * n]
    ensures Memory.Written(mem, addr, n, d) == Memory.Written(mem, addr, n, e)
  {
    if n > 0 {
      assert d[..8 * (n - 1)] == d[..8 * n][..8 * (n - 1)] && e[..8 * (n - 1)] == e[..8 * n][..8 * (n - 1)];
      WrittenLow(mem, addr, n - 1, d, e);
      assert Memory.Lane(d, n - 1) == d[..8 * n][8 * (n - 1)..] && Memory.Lane(e, n - 1) == e[..8 * n][8 * (n - 1)..];
    }
  }

  /** A store of n bytes through the narrowing block. */
  lemma StoreIs(mem: seq<Memory.Byte>, addr: nat, size: nat, data: Word)
    requires size in {BYTE, HALF, WORD}
    ensures Numbers(Memory.Write(mem, addr, size, Memory.Narrow(size, data)))
         == Isa.StoreBytes(Numbers(mem), addr, Memory.Bytes(size), Val(data))
  {
    var n := Memory.Bytes(size);
    assert Memory.Narrow(size, data)[..8 * n] == data[..8 * n];
    WrittenLow(mem, addr, n, Memory.Narrow(size, data), data);
    WrittenIs(mem, addr, n, data);
  }
}
