/** The arithmetic unit (RISCV_SingleCycle/alu.sv): the gate-level form built from the adder and
    the shifter, and the data-flow form written with operators; and the branch decision
    (RISCV_SingleCycle/branch_control.sv), again in both forms. */
module Alu {
  import opened Bits
  import Adder
  import Shift

  datatype Op = ADD | SUB | SLL | SRL | SRA | XOR | AND | OR | SLT | SLTU | UNUSED

  /** The shift count: the low $clog2(XLEN) bits of the second operand under a zero. */
  function ShiftCount(b: Bits): (c: Bits)
    requires |b| >= 1
    ensures |c| == Shift.Clog2(|b|) + 1
  {
    Clog2Fits(|b|);
    b[..Shift.Clog2(|b|)] + [false]
  }

  lemma {:induction false} Clog2Fits(n: nat)
    requires n >= 1
    ensures Shift.Clog2(n) <= n - 1
  {
    if n > 1 {
      Clog2Fits((n + 1) / 2);
    }
  }

  /** One bit in a word. */
  function Flag(n: nat, b: bool): (r: Bits)
    requires n >= 1
    ensures |r| == n
  {
    [b] + Rep(n - 1, false)
  }

  // The controls of adder and shifter.
  predicate NaddSub(op: Op) { op == SLTU || op == SLT || op == SUB }
  predicate RightEn(op: Op) { op == SRA || op == SRL }
  predicate SignExt(op: Op) { op == SRA }

  /** The module alu. */
  function GateFlow(op: Op, a: Bits, b: Bits): (r: Bits)
    requires |a| == |b| >= 2
    ensures |r| == |a|
  {
    var n := |a|;
    var fa := Adder.Adder(NaddSub(op), a, b);
    var out_sh := Shift.Shift(RightEn(op), SignExt(op), a, ShiftCount(b));
    match op
    case ADD => fa.sum
    case SUB => fa.sum
    case SLL => out_sh
    case SRL => out_sh
    case SRA => out_sh
    case XOR => Xor(a, b)
    case AND => And(a, b)
    case OR => Or(a, b)
    case SLT => Flag(n, fa.lt)
    case SLTU => Flag(n, fa.ltu)
    case UNUSED => Rep(n, false)
  }

  /** The module alu_dataflow: arithmetic on the values, reduced to the width of the result. */
  function DataFlow(op: Op, a: Bits, b: Bits): (r: Bits)
    requires |a| == |b| >= 2
    ensures |r| == |a|
  {
    var n, k := |a|, Val(ShiftCount(b));
    match op
    case ADD => ToBits(n, Val(a) + Val(b))
    case SUB => ToBits(n, Val(a) - Val(b))
    case SLL => ToBits(n, Val(a) * Pow2(k))
    case SRL => ToBits(n, Val(a) / Pow2(k))
    case SRA => ToBits(n, SVal(a) / Pow2(k))
    case XOR => Xor(a, b)
    case AND => And(a, b)
    case OR => Or(a, b)
    case SLT => ToBits(n, if SVal(a) < SVal(b) then 1 else 0)
    case SLTU => ToBits(n, if Val(a) < Val(b) then 1 else 0)
    case UNUSED => Rep(n, false)
  }

  lemma FlagIs(n: nat, b: bool)
    requires n >= 1
    ensures Flag(n, b) == ToBits(n, B2N(b))
  {
    ValZeros(n - 1);
    assert Flag(n, b)[1..] == Rep(n - 1, false);
    ScaleOne(n);
    IsToBits(Flag(n, b), B2N(b), 0);
  }

  lemma LeftAgrees(a: Bits, c: Bits)
    requires |a| >= 1 && |c| == Shift.Clog2(|a|) + 1
    ensures Shift.Shift(false, false, a, c) == ToBits(|a|, Val(a) * Pow2(Val(c)))
  {
    var e := Rep(Val(c), false) + a;
    Shift.LeftIs(false, a, c);
    Shift.ZerosBelow(Val(c), a);
    ValSplit(e, |a|);
    IsToBits(e[..|a|], Val(e), Val(e[|a|..]));
  }

  lemma RightAgrees(sign: bool, a: Bits, c: Bits)
    requires |a| >= 1 && |c| == Shift.Clog2(|a|) + 1
    ensures Shift.Shift(true, sign, a, c) == ToBits(|a|, (if sign then SVal(a) else Val(a)) / Pow2(Val(c)))
  {
    var r := Shift.Shift(true, sign, a, c);
    ScaleBit(|a|, !Msb(r));
    ScaleOne(|a|);
    if sign {
      Shift.RightSigned(a, c);
      IsToBits(r, SVal(r), if Msb(r) then -1 else 0);
    } else {
      Shift.RightUnsigned(a, c);
      IsToBits(r, Val(r), 0);
    }
  }

  lemma CompareAgrees(a: Bits, b: Bits)
    requires |a| == |b| >= 2
    ensures Flag(|a|, Adder.Adder(true, a, b).lt) == ToBits(|a|, if SVal(a) < SVal(b) then 1 else 0)
    ensures Flag(|a|, Adder.Adder(true, a, b).ltu) == ToBits(|a|, if Val(a) < Val(b) then 1 else 0)
  {
    Adder.Comparator(a, b);
    FlagIs(|a|, Adder.Adder(true, a, b).lt);
    FlagIs(|a|, Adder.Adder(true, a, b).ltu);
  }

  lemma AddCase(op: Op, a: Bits, b: Bits)
    requires |a| == |b| >= 2 && (op == ADD || op == SUB)
    ensures GateFlow(op, a, b) == DataFlow(op, a, b)
  {
    Adder.SumWraps(op == SUB, a, b);
  }

  lemma ShiftCase(op: Op, a: Bits, b: Bits)
    requires |a| == |b| >= 2 && (op == SLL || op == SRL || op == SRA)
    ensures GateFlow(op, a, b) == DataFlow(op, a, b)
  {
    if op == SLL {
      LeftAgrees(a, ShiftCount(b));
    } else {
      RightAgrees(op == SRA, a, ShiftCount(b));
    }
  }

  lemma CompareCase(op: Op, a: Bits, b: Bits)
    requires |a| == |b| >= 2 && (op == SLT || op == SLTU)
    ensures GateFlow(op, a, b) == DataFlow(op, a, b)
  {
    CompareAgrees(a, b);
  }

  /** The two forms of the arithmetic unit give the same result for every operation, every width
      from 2 up and all operands. */
  lemma GateFlowIsDataFlow(op: Op, a: Bits, b: Bits)
    requires |a| == |b| >= 2
    ensures GateFlow(op, a, b) == DataFlow(op, a, b)
  {
    if op == ADD || op == SUB {
      AddCase(op, a, b);
    } else if op == SLL || op == SRL || op == SRA {
      ShiftCase(op, a, b);
    } else if op == SLT || op == SLTU {
      CompareCase(op, a, b);
    }
  }

  // ----- branches

  /** branch_control with the comparator: the decision for the funct3 field f3. */
  predicate BranchGate(bType: bool, f3: nat, x: Bits, y: Bits)
    requires |x| == |y| >= 1
  {
    var c := Adder.Adder(true, x, y);
    var take :=
      if f3 == 0 then c.eq
      else if f3 == 1 then !c.eq
      else if f3 == 4 then c.lt
      else if f3 == 5 then !c.lt || c.eq
      else if f3 == 6 then c.ltu
      else if f3 == 7 then !c.ltu || c.eq
      else false;
    bType && take
  }

  /** branch_control written with comparison operators. */
  predicate BranchFlow(bType: bool, f3: nat, x: Bits, y: Bits)
    requires |x| == |y| >= 1
  {
    bType &&
    if f3 == 0 then Val(x) == Val(y)
    else if f3 == 1 then Val(x) != Val(y)
    else if f3 == 4 then SVal(x) < SVal(y)
    else if f3 == 5 then SVal(x) >= SVal(y)
    else if f3 == 6 then Val(x) < Val(y)
    else if f3 == 7 then Val(x) >= Val(y)
    else false
  }

  /** Both forms take the same branches. */
  lemma BranchFormsAgree(bType: bool, f3: nat, x: Bits, y: Bits)
    requires |x| == |y| >= 1
    ensures BranchGate(bType, f3, x, y) == BranchFlow(bType, f3, x, y)
  {
    Adder.Comparator(x, y);
    if Val(x) == Val(y) {
      ValInjective(x, y);
    }
  }
}
