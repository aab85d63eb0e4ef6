/** Bit vectors of any width.

    A vector is a sequence of bits, least significant bit first, so the Verilog slice
    v[hi:lo] is v[lo..hi+1] and the concatenation {a, b} is b + a. */
module Bits {

  type Bits = seq<bool>

  function B2N(b: bool): nat { if b then 1 else 0 }

  function Pow2(n: nat): (p: nat)
    ensures p >= 1
  {
    if n == 0 then 1 else 2 * Pow2(n - 1)
  }

  /** The unsigned value of a vector. */
  function Val(a: Bits): nat {
    if a == [] then 0 else B2N(a[0]) + 2 * Val(a[1..])
  }

  function Msb(a: Bits): bool
    requires a != []
  {
    a[|a| - 1]
  }

  /** The two's-complement value of a vector. */
  function SVal(a: Bits): int
    requires a != []
  {
    if Msb(a) then Val(a) - Pow2(|a|) else Val(a)
  }

  /** The vector of n bits that holds v mod 2^n. */
  function ToBits(n: nat, v: int): (a: Bits)
    ensures |a| == n
  {
    if n == 0 then [] else [v % 2 == 1] + ToBits(n - 1, v / 2)
  }

  /** The replication {n{b}}. */
  function Rep(n: nat, b: bool): (a: Bits)
    ensures |a| == n && forall i :: 0 <= i < n ==> a[i] == b
  {
    seq(n, _ => b)
  }

  function Not(a: Bits): (r: Bits)
    ensures |r| == |a| && forall i :: 0 <= i < |a| ==> r[i] == !a[i]
  {
    seq(|a|, i requires 0 <= i < |a| => !a[i])
  }

  function And(a: Bits, b: Bits): (r: Bits)
    requires |a| == |b|
    ensures |r| == |a| && forall i :: 0 <= i < |a| ==> r[i] == (a[i] && b[i])
  {
    seq(|a|, i requires 0 <= i < |a| => a[i] && b[i])
  }

  function Or(a: Bits, b: Bits): (r: Bits)
    requires |a| == |b|
    ensures |r| == |a| && forall i :: 0 <= i < |a| ==> r[i] == (a[i] || b[i])
  {
    seq(|a|, i requires 0 <= i < |a| => a[i] || b[i])
  }

  function Xor(a: Bits, b: Bits): (r: Bits)
    requires |a| == |b|
    ensures |r| == |a| && forall i :: 0 <= i < |a| ==> r[i] == (a[i] != b[i])
  {
    seq(|a|, i requires 0 <= i < |a| => a[i] != b[i])
  }

  /** The reduction operators |a and ^a. */
  predicate OrAll(a: Bits) { exists i :: 0 <= i < |a| && a[i] }

  predicate XorAll(a: Bits) {
    if a == [] then false else a[0] != XorAll(a[1..])
  }

  /** Two-out-of-three vote. */
  predicate Maj(a: bool, b: bool, c: bool) { (a && b) || (a && c) || (b && c) }

  lemma {:induction false} ValBound(a: Bits)
    ensures Val(a) < Pow2(|a|)
  {
    if a != [] {
      ValBound(a[1..]);
    }
  }

  /** x * 2^n, by doubling. */
  function Scale(n: nat, x: int): int {
    if n == 0 then x else 2 * Scale(n - 1, x)
  }

  lemma {:induction false} ScaleIsMul(n: nat, x: int)
    ensures Scale(n, x) == x * Pow2(n)
  {
    if n > 0 {
      ScaleIsMul(n - 1, x);
      assert 2 * (x * Pow2(n - 1)) == x * Pow2(n);
    }
  }

  lemma {:induction false} ScaleAdd(n: nat, x: int, y: int)
    ensures Scale(n, x + y) == Scale(n, x) + Scale(n, y)
  {
    if n > 0 {
      ScaleAdd(n - 1, x, y);
    }
  }

  lemma {:induction false} ScaleTwice(m: nat, n: nat, x: int)
    ensures Scale(m, Scale(n, x)) == Scale(m + n, x)
  {
    if m > 0 {
      ScaleTwice(m - 1, n, x);
    }
  }

  lemma {:induction false} ScaleOne(n: nat)
    ensures Scale(n, 1) == Pow2(n) && Scale(n, 0) == 0
  {
    if n > 0 {
      ScaleOne(n - 1);
    }
  }

  lemma {:induction false} ValAppend(a: Bits, b: Bits)
    ensures Val(a + b) == Val(a) + Scale(|a|, Val(b))
  {
    if a == [] {
      assert a + b == b;
    } else {
      ValAppend(a[1..], b);
      assert (a + b)[1..] == a[1..] + b;
    }
  }

  /** Splitting off the most significant bit. */
  lemma {:induction false} ValMsb(a: Bits)
    requires a != []
    ensures Val(a) == Val(a[..|a| - 1]) + if Msb(a) then Pow2(|a| - 1) else 0
  {
    if |a| > 1 {
      ValMsb(a[1..]);
      assert a[1..][..|a| - 2] == a[..|a| - 1][1..];
    }
  }

  /** The same for the low n bits. */
  lemma PrefixMsb(a: Bits, n: nat)
    requires 0 < n <= |a|
    ensures Val(a[..n]) == Val(a[..n - 1]) + if a[n - 1] then Pow2(n - 1) else 0
  {
    ValMsb(a[..n]);
    assert a[..n][..n - 1] == a[..n - 1];
  }

  /** Equal width and equal value mean equal vectors. */
  lemma {:induction false} ValInjective(a: Bits, b: Bits)
    requires |a| == |b| && Val(a) == Val(b)
    ensures a == b
  {
    if a != [] {
      ValInjective(a[1..], b[1..]);
      assert a == [a[0]] + a[1..] && b == [b[0]] + b[1..];
    }
  }

  /** ToBits is the inverse of Val. */
  lemma {:induction false} ToBitsVal(n: nat, v: int)
    requires 0 <= v < Pow2(n)
    ensures Val(ToBits(n, v)) == v
  {
    if n > 0 {
      ToBitsVal(n - 1, v / 2);
      assert ToBits(n, v)[1..] == ToBits(n - 1, v / 2);
    }
  }

  lemma ValToBits(a: Bits)
    ensures ToBits(|a|, Val(a)) == a
  {
    ValBound(a);
    ToBitsVal(|a|, Val(a));
    ValInjective(ToBits(|a|, Val(a)), a);
  }

  lemma {:induction false} ValZeros(n: nat)
    ensures Val(Rep(n, false)) == 0
  {
    if n > 0 {
      ValZeros(n - 1);
      assert Rep(n, false)[1..] == Rep(n - 1, false);
    }
  }

  lemma {:induction false} ValNot(a: Bits)
    ensures Val(Not(a)) == Pow2(|a|) - 1 - Val(a)
  {
    if a != [] {
      ValNot(a[1..]);
      assert Not(a)[1..] == Not(a[1..]);
    }
  }

  lemma {:induction false} Pow2Mono(m: nat, n: nat)
    requires m <= n
    ensures Pow2(m) <= Pow2(n)
  {
    if m < n {
      Pow2Mono(m, n - 1);
    }
  }

  /** The only vector of value zero is all zeros. */
  lemma ValZeroIff(a: Bits)
    ensures Val(a) == 0 <==> !OrAll(a)
  {
    ValZeros(|a|);
    if Val(a) == 0 {
      ValInjective(a, Rep(|a|, false));
    }
    if !OrAll(a) {
      assert a == Rep(|a|, false);
    }
  }

  /** Sign extension keeps the two's-complement value. */
  lemma {:induction false} SignExtendVal(a: Bits, n: nat)
    requires a != []
    ensures SVal(a + Rep(n, Msb(a))) == SVal(a)
  {
    if n == 0 {
      assert a + Rep(n, Msb(a)) == a;
    } else {
      var b := a + Rep(n - 1, Msb(a));
      var e := a + Rep(n, Msb(a));
      SignExtendVal(a, n - 1);
      ValMsb(e);
      assert e[..|e| - 1] == b;
    }
  }

  /** Zero extension keeps the unsigned value. */
  lemma ZeroExtendVal(a: Bits, n: nat)
    ensures Val(a + Rep(n, false)) == Val(a)
  {
    ValAppend(a, Rep(n, false));
    ValZeros(n);
    ScaleOne(|a|);
  }

  lemma SValBound(a: Bits)
    requires a != []
    ensures -(Pow2(|a| - 1) as int) <= SVal(a) < Pow2(|a| - 1)
    ensures Msb(a) <==> SVal(a) < 0
    ensures Msb(a) <==> Val(a) >= Pow2(|a| - 1)
  {
    ValBound(a[..|a| - 1]);
    ValMsb(a);
  }

  /** The low n bits are the remainder modulo 2^n, the others the quotient. */
  lemma ValSplit(a: Bits, n: nat)
    requires n <= |a|
    ensures Val(a) == Val(a[..n]) + Scale(n, Val(a[n..]))
    ensures Val(a[..n]) < Pow2(n)
  {
    assert a == a[..n] + a[n..];
    ValAppend(a[..n], a[n..]);
    ValBound(a[..n]);
  }

  lemma ValSplitDivMod(a: Bits, n: nat)
    requires n <= |a|
    ensures Val(a[..n]) == Val(a) % Pow2(n)
    ensures Val(a[n..]) == Val(a) / Pow2(n)
  {
    ValSplit(a, n);
    ScaleDivMod(n, Val(a[n..]), Val(a[..n]), Val(a));
  }

  lemma ScaleDivMod(n: nat, q: int, r: int, x: int)
    requires x == Scale(n, q) + r && 0 <= r < Pow2(n)
    ensures x / Pow2(n) == q && x % Pow2(n) == r
  {
    ScaleIsMul(n, q);
    DivUnique(x, q, r, Pow2(n));
  }

  /** Quotient and remainder are unique. */
  lemma DivUnique(x: int, q: int, r: int, m: nat)
    requires m > 0 && 0 <= r < m && x == q * m + r
    ensures x / m == q && x % m == r
  {
    SameQuotient(q, r, x / m, x % m, m);
  }

  lemma SameQuotient(q: int, r: int, q': int, r': int, m: int)
    requires 0 <= r < m && 0 <= r' < m && q * m + r == q' * m + r'
    ensures q == q' && r == r'
  {
    MulGap(q - q', m);
    MulGap(q' - q, m);
    assert (q - q') * m == r' - r;
  }

  lemma MulGap(d: int, m: int)
    requires m > 0
    ensures d > 0 ==> d * m >= m
  {
  }

  /** The reduction to n bits does not see multiples of 2^n. */
  lemma {:induction false} ToBitsWraps(n: nat, v: int, q: int)
    ensures ToBits(n, v + Scale(n, q)) == ToBits(n, v)
  {
    if n > 0 {
      ToBitsWraps(n - 1, v / 2, q);
      assert (v + Scale(n, q)) / 2 == v / 2 + Scale(n - 1, q);
    }
  }

  /** A vector is determined by its value modulo 2^n. */
  lemma IsToBits(r: Bits, v: int, q: int)
    requires v == Val(r) + Scale(|r|, q)
    ensures r == ToBits(|r|, v)
  {
    ToBitsWraps(|r|, Val(r), q);
    ValToBits(r);
  }

  lemma ScaleBit(n: nat, b: bool)
    ensures Scale(n, B2N(b)) == if b then Pow2(n) else 0
    ensures Scale(n, B2N(b) - 1) == if b then 0 else -(Pow2(n) as int)
  {
    ScaleOne(n);
    ScaleAdd(n, -1, 1);
  }

  /** A sum with its carry, or a difference with its complemented borrow, determines the result
      modulo 2^n. */
  lemma SumIsToBits(r: Bits, sub: bool, carry: bool, v: int)
    requires v + (if sub then Pow2(|r|) else 0) == Val(r) + (if carry then Pow2(|r|) else 0)
    ensures r == ToBits(|r|, v)
  {
    ScaleBit(|r|, carry);
    IsToBits(r, v, if sub then B2N(carry) - 1 else B2N(carry));
  }

  /** What reducing to n bits leaves out. */
  lemma {:induction false} Quotient(n: nat, v: int) returns (q: int)
    ensures v == Val(ToBits(n, v)) + Scale(n, q)
  {
    if n == 0 {
      q := v;
    } else {
      q := Quotient(n - 1, v / 2);
      assert ToBits(n, v)[1..] == ToBits(n - 1, v / 2);
    }
  }
}
