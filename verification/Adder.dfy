/** Ripple-carry adder, subtractor and comparator of any width (modules/adder.v). */
module Adder {
  import opened Bits

  // ----- gates

  predicate HalfSum(a: bool, b: bool) { a != b }
  predicate HalfCarry(a: bool, b: bool) { a && b }

  predicate FullSum(a: bool, b: bool, cin: bool) { HalfSum(HalfSum(a, b), cin) }
  predicate FullCarry(a: bool, b: bool, cin: bool) {
    HalfCarry(a, b) || HalfCarry(HalfSum(a, b), cin)
  }

  /** The carry out of the last stage of the chain, that is C[n]. */
  predicate Carry(x: Bits, y: Bits, c0: bool)
    requires |x| == |y|
  {
    var n := |x|;
    if n == 0 then c0 else FullCarry(x[n - 1], y[n - 1], Carry(x[..n - 1], y[..n - 1], c0))
  }

  /** The sum bits of the chain. */
  function Sum(x: Bits, y: Bits, c0: bool): (s: Bits)
    requires |x| == |y|
    ensures |s| == |x|
  {
    var n := |x|;
    if n == 0 then []
    else
      Sum(x[..n - 1], y[..n - 1], c0) + [FullSum(x[n - 1], y[n - 1], Carry(x[..n - 1], y[..n - 1], c0))]
  }

  datatype Out = Out(sum: Bits, carry: bool, overflow: bool, eq: bool, lt: bool, ltu: bool)

  /** The second operand as the chain sees it: complemented in subtract mode. */
  function Operand(sub: bool, y: Bits): (r: Bits)
    ensures |r| == |y|
  {
    Xor(y, Rep(|y|, sub))
  }

  function Flags(sum: Bits, carry: bool, overflow: bool, differ: bool): Out {
    var eq := !OrAll(sum);
    Out(sum, carry, overflow, eq, !eq && ((!differ && !carry) || (differ && carry)), !eq && !carry)
  }

  /** The module adder. */
  function Adder(sub: bool, x: Bits, y: Bits): (o: Out)
    requires |x| == |y| >= 1
    ensures |o.sum| == |x|
  {
    var n := |x|;
    var y2 := Operand(sub, y);
    Flags(Sum(x, y2, sub), Carry(x, y2, sub),
          Carry(x[..n - 1], y2[..n - 1], sub) != Carry(x, y2, sub),
          Msb(x) != Msb(y))
  }

  // ----- what the chain computes

  /** Sum and carry together are the exact sum of the operands and the carry in. */
  lemma {:induction false} ChainExact(x: Bits, y: Bits, c0: bool)
    requires |x| == |y|
    ensures Val(Sum(x, y, c0)) + (if Carry(x, y, c0) then Pow2(|x|) else 0) == Val(x) + Val(y) + B2N(c0)
  {
    var n := |x|;
    if n > 0 {
      ChainExact(x[..n - 1], y[..n - 1], c0);
      ValMsb(x);
      ValMsb(y);
      ValMsb(Sum(x, y, c0));
    }
  }

  lemma OperandVal(sub: bool, y: Bits)
    ensures Val(Operand(sub, y)) == if sub then Pow2(|y|) - 1 - Val(y) else Val(y)
    ensures y != [] ==> Msb(Operand(sub, y)) == (Msb(y) != sub)
  {
    OperandIs(sub, y);
    ValNot(y);
  }

  lemma OperandIs(sub: bool, y: Bits)
    ensures Operand(sub, y) == if sub then Not(y) else y
  {
    var r := if sub then Not(y) else y;
    assert forall i :: 0 <= i < |y| ==> Operand(sub, y)[i] == r[i];
  }

  /** {carry, sum} is the exact sum, or in subtract mode the exact difference plus 2^n. */
  lemma AdderExact(sub: bool, x: Bits, y: Bits)
    requires |x| == |y| >= 1
    ensures var o := Adder(sub, x, y);
      Val(o.sum) + (if o.carry then Pow2(|x|) else 0)
      == if sub then Val(x) - Val(y) + Pow2(|x|) else Val(x) + Val(y)
  {
    ChainExact(x, Operand(sub, y), sub);
    OperandVal(sub, y);
  }

  /** {carry, sum} of an addition of a and b, or of a subtraction, in n bits. */
  ghost predicate Exact(o: Out, n: nat, sub: bool, a: int, b: int) {
    |o.sum| == n && Val(o.sum) + (if o.carry then Pow2(n) else 0) == if sub then a - b + Pow2(n) else a + b
  }

  function Result(sub: bool, a: int, b: int): int { if sub then a - b else a + b }

  lemma WrapOf(o: Out, n: nat, sub: bool, a: int, b: int)
    requires Exact(o, n, sub, a, b)
    ensures o.sum == ToBits(n, Result(sub, a, b))
  {
    SumIsToBits(o.sum, sub, o.carry, Result(sub, a, b));
  }

  lemma OutIsExact(o: Out, sub: bool, x: Bits, y: Bits)
    requires |x| == |y| >= 1 && o == Adder(sub, x, y)
    ensures Exact(o, |x|, sub, Val(x), Val(y))
  {
    AdderExact(sub, x, y);
  }

  /** The sum is the exact result reduced to the width of the operands. */
  lemma SumWraps(sub: bool, x: Bits, y: Bits)
    requires |x| == |y| >= 1
    ensures Adder(sub, x, y).sum == ToBits(|x|, Result(sub, Val(x), Val(y)))
  {
    var o := Adder(sub, x, y);
    OutIsExact(o, sub, x, y);
    WrapOf(o, |x|, sub, Val(x), Val(y));
  }

  /** Low bits, signs and the last two carries of an addition, in numbers: p is the weight of the
      sign bit, low the carry into it and high the carry out of it. */
  lemma SignedSum(p: nat, a: nat, am: bool, b: nat, bm: bool, c: nat, s: nat, sm: bool, low: bool, high: bool)
    requires p > 0 && a < p && b < p && s < p && c < 2
    requires s + (if low then p else 0) == a + b + c
    requires s + (if sm then p else 0) + (if high then 2 * p else 0)
          == a + (if am then p else 0) + b + (if bm then p else 0) + c
    ensures var exact := a - (if am then p else 0) + b - (if bm then p else 0) + c;
      && (low != high <==> !(-(p as int) <= exact < p))
      && s - (if sm then p else 0)
         == if low == high then exact else if exact < 0 then exact + 2 * p else exact - 2 * p
  {
  }

  lemma SValIs(x: Bits)
    requires x != []
    ensures SVal(x) == Low(x) - (if Msb(x) then Pow2(|x| - 1) else 0)
    ensures Low(x) < Pow2(|x| - 1)
  {
    ValMsb(x);
    ValBound(x[..|x| - 1]);
  }

  /** The two top carries of the chain and the signed sum. */
  lemma ChainOverflow(x: Bits, y: Bits, c0: bool)
    requires |x| == |y| >= 1
    ensures SignedResult(|x|, SVal(x) + SVal(y) + B2N(c0), SVal(Sum(x, y, c0)),
                         Carry(x[..|x| - 1], y[..|x| - 1], c0), Carry(x, y, c0))
  {
    ChainParts(x, y, c0);
    SignedParts(x, y, c0, Sum(x, y, c0), Carry(x[..|x| - 1], y[..|x| - 1], c0), Carry(x, y, c0));
  }

  /** The value below the sign bit. */
  function Low(x: Bits): nat
    requires x != []
  {
    Val(x[..|x| - 1])
  }

  lemma SumBelow(x: Bits, y: Bits, c0: bool)
    requires |x| == |y| >= 1
    ensures Sum(x, y, c0)[..|x| - 1] == Sum(x[..|x| - 1], y[..|x| - 1], c0)
  {
  }

  /** The exact sums with and without the sign bits. */
  ghost predicate ExactParts(m: nat, a: nat, am: bool, b: nat, bm: bool, c: nat, s: nat, sm: bool,
                             low: bool, high: bool) {
    && s + (if low then Pow2(m) else 0) == a + b + c
    && s + (if sm then Pow2(m) else 0) + (if high then Pow2(m + 1) else 0)
       == a + (if am then Pow2(m) else 0) + b + (if bm then Pow2(m) else 0) + c
  }

  lemma ChainParts(x: Bits, y: Bits, c0: bool)
    requires |x| == |y| >= 1
    ensures ExactParts(|x| - 1, Low(x), Msb(x), Low(y), Msb(y), B2N(c0), Low(Sum(x, y, c0)), Msb(Sum(x, y, c0)),
                       Carry(x[..|x| - 1], y[..|x| - 1], c0), Carry(x, y, c0))
  {
    ChainExact(x[..|x| - 1], y[..|x| - 1], c0);
    ChainExact(x, y, c0);
    SumBelow(x, y, c0);
    ValMsb(x);
    ValMsb(y);
    ValMsb(Sum(x, y, c0));
  }

  lemma SignedParts(x: Bits, y: Bits, c0: bool, s: Bits, low: bool, high: bool)
    requires |x| == |y| == |s| >= 1
    requires ExactParts(|x| - 1, Low(x), Msb(x), Low(y), Msb(y), B2N(c0), Low(s), Msb(s), low, high)
    ensures SignedResult(|x|, SVal(x) + SVal(y) + B2N(c0), SVal(s), low, high)
  {
    SValIs(x);
    SValIs(y);
    SValIs(s);
    FromParts(|x| - 1, Low(x), Msb(x), Low(y), Msb(y), B2N(c0), Low(s), Msb(s), low, high);
  }

  lemma FromParts(m: nat, a: nat, am: bool, b: nat, bm: bool, c: nat, s: nat, sm: bool, low: bool, high: bool)
    requires a < Pow2(m) && b < Pow2(m) && s < Pow2(m) && c < 2
    requires ExactParts(m, a, am, b, bm, c, s, sm, low, high)
    ensures SignedResult(m + 1, a - (if am then Pow2(m) else 0) + b - (if bm then Pow2(m) else 0) + c,
                         s - (if sm then Pow2(m) else 0), low, high)
  {
    SignedSum(Pow2(m), a, am, b, bm, c, s, sm, low, high);
  }

  /** The two top carries differ exactly when the result does not fit in n bits; otherwise the
      sum is the exact result. */
  ghost predicate SignedResult(n: nat, exact: int, sum: int, low: bool, high: bool)
    requires n >= 1
  {
    && (low != high <==> !(-(Pow2(n - 1) as int) <= exact < Pow2(n - 1)))
    && sum == if low == high then exact else if exact < 0 then exact + Pow2(n) else exact - Pow2(n)
  }

  lemma OperandSVal(sub: bool, y: Bits)
    requires y != []
    ensures SVal(Operand(sub, y)) + B2N(sub) == if sub then -SVal(y) else SVal(y)
  {
    OperandVal(sub, y);
  }

  /** The overflow flag is up exactly when the signed result does not fit; when it fits, the sum
      is that result, otherwise it is off by 2^n. */
  lemma AdderOverflow(sub: bool, x: Bits, y: Bits)
    requires |x| == |y| >= 1
    ensures var o := Adder(sub, x, y);
      var exact := if sub then SVal(x) - SVal(y) else SVal(x) + SVal(y);
      && (o.overflow <==> !(-(Pow2(|x| - 1) as int) <= exact < Pow2(|x| - 1)))
      && SVal(o.sum) == (if !o.overflow then exact else if exact < 0 then exact + Pow2(|x|) else exact - Pow2(|x|))
  {
    ChainOverflow(x, Operand(sub, y), sub);
    OperandSVal(sub, y);
  }

  /** In subtract mode the flags are equality, unsigned order and signed order. */
  lemma Comparator(x: Bits, y: Bits)
    requires |x| == |y| >= 1
    ensures var o := Adder(true, x, y);
      && (o.eq <==> x == y)
      && (o.ltu <==> Val(x) < Val(y))
      && (o.lt <==> SVal(x) < SVal(y))
  {
    var o := Adder(true, x, y);
    AdderExact(true, x, y);
    ValZeroIff(o.sum);
    ValBound(x);
    ValBound(y);
    ValBound(o.sum);
    SValBound(x);
    SValBound(y);
    if Val(x) == Val(y) {
      ValInjective(x, y);
    }
  }

  // ----- the data-flow forms

  lemma ChainStep(x: Bits, y: Bits, c0: bool, k: nat)
    requires |x| == |y| && k < |x|
    ensures Carry(x[..k + 1], y[..k + 1], c0) == FullCarry(x[k], y[k], Carry(x[..k], y[..k], c0))
    ensures Sum(x[..k + 1], y[..k + 1], c0)
         == Sum(x[..k], y[..k], c0) + [FullSum(x[k], y[k], Carry(x[..k], y[..k], c0))]
  {
    assert x[..k + 1][..k] == x[..k] && y[..k + 1][..k] == y[..k];
  }

  /** The loop of the data-flow branch of adder: S and C[n-1], C[n]. */
  method DataFlowChain(sub: bool, x: Bits, y: Bits) returns (s: Bits, before: bool, carry: bool)
    requires |x| == |y| >= 1
    ensures s == Sum(x, Operand(sub, y), sub)
    ensures before == Carry(x[..|x| - 1], Operand(sub, y)[..|x| - 1], sub)
    ensures carry == Carry(x, Operand(sub, y), sub)
  {
    var n := |x|;
    ghost var op := Operand(sub, y);
    s, before, carry := [], sub, sub;
    for k := 0 to n
      invariant s == Sum(x[..k], op[..k], sub)
      invariant carry == Carry(x[..k], op[..k], sub)
      invariant k > 0 ==> before == Carry(x[..k - 1], op[..k - 1], sub)
    {
      ChainStep(x, op, sub, k);
      var y2c := y[k] != sub;
      s := s + [(x[k] != y2c) != carry];
      before := carry;
      carry := (x[k] && y2c) || (x[k] && carry) || (y2c && carry);
    }
    assert x[..n] == x && op[..n] == op;
  }

  /** The data-flow branch of adder gives every output of the gate-level chain. */
  method DataFlowAdder(sub: bool, x: Bits, y: Bits) returns (o: Out)
    requires |x| == |y| >= 1
    ensures o == Adder(sub, x, y)
  {
    var s, before, carry := DataFlowChain(sub, x, y);
    o := Flags(s, carry, before != carry, Msb(x) != Msb(y));
  }

  /** The loop of fast_adder: S and C[n-1], C[n]. */
  method FastChain(sub: bool, x: Bits, y: Bits) returns (s: Bits, before: bool, carry: bool)
    requires |x| == |y| >= 1
    ensures s == Sum(x, Operand(sub, y), sub)
    ensures before == Carry(x[..|x| - 1], Operand(sub, y)[..|x| - 1], sub)
    ensures carry == Carry(x, Operand(sub, y), sub)
  {
    var n := |x|;
    ghost var op := Operand(sub, y);
    s, before, carry := [], sub, sub;
    for k := 0 to n
      invariant s == Sum(x[..k], op[..k], sub)
      invariant carry == Carry(x[..k], op[..k], sub)
      invariant k > 0 ==> before == Carry(x[..k - 1], op[..k - 1], sub)
    {
      ChainStep(x, op, sub, k);
      var y2c := y[k] != sub;
      s := s + [(x[k] != y2c) != carry];
      before := carry;
      carry := (x[k] && y2c) || ((x[k] || y2c) && carry);
    }
    assert x[..n] == x && op[..n] == op;
  }

  /** The module fast_adder agrees with the gate-level chain; its comparison flags are held low
      outside subtract mode. */
  method FastAdder(sub: bool, x: Bits, y: Bits) returns (o: Out)
    requires |x| == |y| >= 1
    ensures o.sum == Adder(sub, x, y).sum
    ensures o.carry == Adder(sub, x, y).carry
    ensures o.overflow == Adder(sub, x, y).overflow
    ensures if sub then o == Adder(sub, x, y) else !o.eq && !o.lt && !o.ltu
  {
    var s, before, carry := FastChain(sub, x, y);
    var eq := sub && !OrAll(s);
    var cmp := sub && !eq;
    var differ := Msb(x) != Msb(y);
    o := Out(s, carry, before != carry, eq, cmp && ((!differ && !carry) || (differ && carry)), cmp && !carry);
  }
}
