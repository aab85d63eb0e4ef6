/** Logarithmic barrel shifters of any width (modules/shift.v). */
module Shift {
  import opened Bits

  /** $clog2: the number of address bits for n items. */
  function Clog2(n: nat): nat {
    if n <= 1 then 0 else 1 + Clog2((n + 1) / 2)
  }

  lemma {:induction false} Clog2Is(n: nat)
    requires n >= 1
    ensures n <= Pow2(Clog2(n)) && (n > 1 ==> Pow2(Clog2(n) - 1) < n)
  {
    if n > 1 {
      Clog2Is((n + 1) / 2);
    }
  }

  /** The gates of mux_2to1. */
  predicate Mux(w0: bool, w1: bool, sel: bool) { (w0 && !sel) || (w1 && sel) }

  /** The first m muxes of a row of shift_right, which shifts by p when sel is set. */
  function RightRow(msb: bool, prev: Bits, p: nat, sel: bool, m: nat): (out: Bits)
    requires m <= |prev|
    ensures |out| == m
  {
    if m == 0 then []
    else
      RightRow(msb, prev, p, sel, m - 1)
      + [Mux(prev[m - 1], if m - 1 >= |prev| - p then msb else prev[m - 1 + p], sel)]
  }

  /** The first m muxes of a row of shift_left. */
  function LeftRow(prev: Bits, p: nat, sel: bool, m: nat): (out: Bits)
    requires m <= |prev|
    ensures |out| == m
  {
    if m == 0 then []
    else
      LeftRow(prev, p, sel, m - 1) + [Mux(prev[m - 1], if m - 1 < p then false else prev[m - 1 - p], sel)]
  }

  /** Bit j of a vector that msb extends without end. */
  predicate Ext(a: Bits, msb: bool, j: int) { if 0 <= j < |a| then a[j] else msb }

  /** The outputs of stage s of shift_right: stage 0 is the input. */
  function RightStage(msb: bool, din: Bits, shiftN: Bits, s: nat): (out: Bits)
    requires s <= |shiftN|
    ensures |out| == |din|
  {
    if s == 0 then din
    else RightRow(msb, RightStage(msb, din, shiftN, s - 1), Pow2(s - 1), shiftN[s - 1], |din|)
  }

  function LeftStage(din: Bits, shiftN: Bits, s: nat): (out: Bits)
    requires s <= |shiftN|
    ensures |out| == |din|
  {
    if s == 0 then din
    else LeftRow(LeftStage(din, shiftN, s - 1), Pow2(s - 1), shiftN[s - 1], |din|)
  }

  /** The module shift_right. */
  function ShiftRight(sign: bool, din: Bits, shiftN: Bits): (out: Bits)
    requires |din| >= 1 && |shiftN| == Clog2(|din|) + 1
    ensures |out| == |din|
  {
    var msb := sign && Msb(din);
    if Msb(shiftN) then Rep(|din|, msb) else RightStage(msb, din, shiftN, Clog2(|din|))
  }

  /** The module shift_left. */
  function ShiftLeft(din: Bits, shiftN: Bits): (out: Bits)
    requires |din| >= 1 && |shiftN| == Clog2(|din|) + 1
    ensures |out| == |din|
  {
    if Msb(shiftN) then Rep(|din|, false) else LeftStage(din, shiftN, Clog2(|din|))
  }

  function Reverse(a: Bits): (r: Bits)
    ensures |r| == |a| && forall i :: 0 <= i < |a| ==> r[i] == a[|a| - 1 - i]
  {
    seq(|a|, i requires 0 <= i < |a| => a[|a| - 1 - i])
  }

  /** The module shift: a left shift is a right shift of the reversed input, reversed. */
  function Shift(rightEn: bool, sign: bool, din: Bits, shiftN: Bits): (out: Bits)
    requires |din| >= 1 && |shiftN| == Clog2(|din|) + 1
    ensures |out| == |din|
  {
    if rightEn then ShiftRight(sign, din, shiftN) else Reverse(ShiftRight(false, Reverse(din), shiftN))
  }

  // ----- what the stages compute

  /** The vector moved down k places, msb coming in; moved up, zeros coming in. */
  function Down(a: Bits, msb: bool, k: nat): (r: Bits)
    ensures |r| == |a|
  {
    (a + Rep(k, msb))[k..]
  }

  function Up(a: Bits, k: nat): (r: Bits)
    ensures |r| == |a|
  {
    (Rep(k, false) + a)[..|a|]
  }

  lemma SameElements(a: Bits, b: Bits)
    requires |a| == |b| && forall i :: 0 <= i < |a| ==> a[i] == b[i]
    ensures a == b
  {
  }

  lemma DownAt(a: Bits, msb: bool, k: nat, b: nat)
    requires b < |a|
    ensures Down(a, msb, k)[b] == Ext(a, msb, b + k)
  {
  }

  lemma UpAt(a: Bits, k: nat, b: nat)
    requires b < |a|
    ensures Up(a, k)[b] == Ext(a, false, b - k)
  {
  }

  /** Looking up a moved vector is looking further up or down in the original. */
  lemma ExtDown(a: Bits, msb: bool, k: nat, j: nat)
    ensures Ext(Down(a, msb, k), msb, j) == Ext(a, msb, j + k)
  {
    if j < |a| {
      DownAt(a, msb, k, j);
    }
  }

  lemma ExtUp(a: Bits, k: nat, j: int)
    requires j < |a|
    ensures Ext(Up(a, k), false, j) == Ext(a, false, j - k)
  {
    if j >= 0 {
      UpAt(a, k, j);
    }
  }

  /** A row of muxes moves by p places or not at all. */
  lemma {:induction false} RightRowAt(prev: Bits, msb: bool, p: nat, sel: bool, m: nat, b: nat)
    requires b < m <= |prev|
    ensures RightRow(msb, prev, p, sel, m)[b] == Ext(prev, msb, if sel then b + p else b)
  {
    if b < m - 1 {
      RightRowAt(prev, msb, p, sel, m - 1, b);
    }
  }

  lemma {:induction false} LeftRowAt(prev: Bits, p: nat, sel: bool, m: nat, b: nat)
    requires b < m <= |prev|
    ensures LeftRow(prev, p, sel, m)[b] == Ext(prev, false, if sel then b - p else b)
  {
    if b < m - 1 {
      LeftRowAt(prev, p, sel, m - 1, b);
    }
  }

  lemma DownTwiceAt(prev: Bits, a: Bits, msb: bool, k: nat, p: nat, sel: bool, k': nat, b: nat)
    requires b < |a| == |prev| && k' == k + if sel then p else 0
    requires var j := if sel then b + p else b; Ext(prev, msb, j) == Ext(a, msb, j + k)
    ensures RightRow(msb, prev, p, sel, |a|)[b] == Ext(a, msb, b + k')
  {
    RightRowAt(prev, msb, p, sel, |a|, b);
  }

  lemma DownTwice(prev: Bits, a: Bits, msb: bool, k: nat, p: nat, sel: bool, k': nat)
    requires prev == Down(a, msb, k) && k' == k + if sel then p else 0
    ensures RightRow(msb, prev, p, sel, |a|) == Down(a, msb, k')
  {
    forall j: nat ensures Ext(prev, msb, j) == Ext(a, msb, j + k) {
      ExtDown(a, msb, k, j);
    }
    DownTwiceFrom(prev, a, msb, k, p, sel, k');
    IsDown(RightRow(msb, prev, p, sel, |a|), a, msb, k');
  }

  lemma DownTwiceFrom(prev: Bits, a: Bits, msb: bool, k: nat, p: nat, sel: bool, k': nat)
    requires |a| == |prev| && k' == k + if sel then p else 0
    requires forall j: nat :: Ext(prev, msb, j) == Ext(a, msb, j + k)
    ensures forall b :: 0 <= b < |a| ==> RightRow(msb, prev, p, sel, |a|)[b] == Ext(a, msb, b + k')
  {
    var row := RightRow(msb, prev, p, sel, |a|);
    forall b | 0 <= b < |row| ensures row[b] == Ext(a, msb, b + k') {
      DownTwiceAt(prev, a, msb, k, p, sel, k', b);
    }
  }

  lemma IsDown(row: Bits, a: Bits, msb: bool, k: nat)
    requires |row| == |a| && forall b :: 0 <= b < |row| ==> row[b] == Ext(a, msb, b + k)
    ensures row == Down(a, msb, k)
  {
    var down := Down(a, msb, k);
    forall b | 0 <= b < |row| ensures row[b] == down[b] {
      DownAt(a, msb, k, b);
    }
    SameElements(row, down);
  }

  lemma UpTwiceAt(prev: Bits, a: Bits, k: nat, p: nat, sel: bool, k': nat, b: nat)
    requires b < |a| == |prev| && k' == k + if sel then p else 0
    requires var j := if sel then b - p else b; Ext(prev, false, j) == Ext(a, false, j - k)
    ensures LeftRow(prev, p, sel, |a|)[b] == Ext(a, false, b - k')
  {
    LeftRowAt(prev, p, sel, |a|, b);
  }

  lemma UpTwice(prev: Bits, a: Bits, k: nat, p: nat, sel: bool, k': nat)
    requires prev == Up(a, k) && k' == k + if sel then p else 0
    ensures LeftRow(prev, p, sel, |a|) == Up(a, k')
  {
    var row := LeftRow(prev, p, sel, |a|);
    forall b | 0 <= b < |row| ensures row[b] == Ext(a, false, b - k') {
      ExtUp(a, k, if sel then b - p else b);
      UpTwiceAt(prev, a, k, p, sel, k', b);
    }
    IsUp(row, a, k');
  }

  lemma IsUp(row: Bits, a: Bits, k: nat)
    requires |row| == |a| && forall b :: 0 <= b < |row| ==> row[b] == Ext(a, false, b - k)
    ensures row == Up(a, k)
  {
    var up := Up(a, k);
    forall b | 0 <= b < |row| ensures row[b] == up[b] {
      UpAt(a, k, b);
    }
    SameElements(row, up);
  }

  /** After s stages the vector is shifted by the low s bits of the shift count. */
  lemma {:induction false} RightStageIs(msb: bool, din: Bits, shiftN: Bits, s: nat)
    requires s <= |shiftN|
    ensures RightStage(msb, din, shiftN, s) == Down(din, msb, Val(shiftN[..s]))
  {
    if s == 0 {
      assert din == Down(din, msb, 0);
    } else {
      RightStageIs(msb, din, shiftN, s - 1);
      PrefixMsb(shiftN, s);
      DownTwice(RightStage(msb, din, shiftN, s - 1), din, msb, Val(shiftN[..s - 1]), Pow2(s - 1), shiftN[s - 1],
                Val(shiftN[..s]));
    }
  }

  lemma {:induction false} LeftStageIs(din: Bits, shiftN: Bits, s: nat)
    requires s <= |shiftN|
    ensures LeftStage(din, shiftN, s) == Up(din, Val(shiftN[..s]))
  {
    if s == 0 {
      assert din == Up(din, 0);
    } else {
      LeftStageIs(din, shiftN, s - 1);
      PrefixMsb(shiftN, s);
      UpTwice(LeftStage(din, shiftN, s - 1), din, Val(shiftN[..s - 1]), Pow2(s - 1), shiftN[s - 1],
              Val(shiftN[..s]));
    }
  }

  /** A set top bit of the count means a shift by the whole width or more. */
  lemma CountSplit(n: nat, shiftN: Bits)
    requires n >= 1 && |shiftN| == Clog2(n) + 1
    ensures if Msb(shiftN) then Val(shiftN) >= n else Val(shiftN) == Val(shiftN[..Clog2(n)])
  {
    Clog2Is(n);
    ValMsb(shiftN);
  }

  lemma RightIsDown(sign: bool, din: Bits, shiftN: Bits)
    requires |din| >= 1 && |shiftN| == Clog2(|din|) + 1
    ensures ShiftRight(sign, din, shiftN) == Down(din, sign && Msb(din), Val(shiftN))
  {
    CountSplit(|din|, shiftN);
    RightStageIs(sign && Msb(din), din, shiftN, Clog2(|din|));
  }

  lemma LeftIsUp(din: Bits, shiftN: Bits)
    requires |din| >= 1 && |shiftN| == Clog2(|din|) + 1
    ensures ShiftLeft(din, shiftN) == Up(din, Val(shiftN))
  {
    CountSplit(|din|, shiftN);
    LeftStageIs(din, shiftN, Clog2(|din|));
  }

  lemma ReversedDownAt(a: Bits, k: nat, b: nat)
    requires b < |a|
    ensures Reverse(Down(Reverse(a), false, k))[b] == Up(a, k)[b]
  {
    DownAt(Reverse(a), false, k, |a| - 1 - b);
    UpAt(a, k, b);
  }

  /** Moving the reversed vector down moves the vector up. */
  lemma ReversedDown(a: Bits, k: nat)
    ensures Reverse(Down(Reverse(a), false, k)) == Up(a, k)
  {
    var out, up := Reverse(Down(Reverse(a), false, k)), Up(a, k);
    forall b | 0 <= b < |out| ensures out[b] == up[b] {
      ReversedDownAt(a, k, b);
    }
    SameElements(out, up);
  }

  /** Right shift, as a slice of the extended input. */
  lemma RightIs(sign: bool, din: Bits, shiftN: Bits)
    requires |din| >= 1 && |shiftN| == Clog2(|din|) + 1
    ensures var k := Val(shiftN);
      Shift(true, sign, din, shiftN) == (din + Rep(k, sign && Msb(din)))[k..]
  {
    RightIsDown(sign, din, shiftN);
  }

  /** Left shift through the reversed right shift, as a slice of the input with zeros below;
      the dedicated left shifter gives the same. */
  lemma LeftIs(sign: bool, din: Bits, shiftN: Bits)
    requires |din| >= 1 && |shiftN| == Clog2(|din|) + 1
    ensures Shift(false, sign, din, shiftN) == (Rep(Val(shiftN), false) + din)[..|din|]
    ensures ShiftLeft(din, shiftN) == Shift(false, sign, din, shiftN)
  {
    RightIsDown(false, Reverse(din), shiftN);
    ReversedDown(din, Val(shiftN));
    LeftIsUp(din, shiftN);
  }

  // ----- what that means for the values

  /** Logical right shift: floor division of the unsigned value by 2^k. */
  lemma RightUnsigned(din: Bits, shiftN: Bits)
    requires |din| >= 1 && |shiftN| == Clog2(|din|) + 1
    ensures Val(Shift(true, false, din, shiftN)) == Val(din) / Pow2(Val(shiftN))
  {
    var k := Val(shiftN);
    RightIs(false, din, shiftN);
    ZeroExtendVal(din, k);
    ValSplitDivMod(din + Rep(k, false), k);
  }

  /** Arithmetic right shift: floor division of the signed value by 2^k. */
  lemma RightSigned(din: Bits, shiftN: Bits)
    requires |din| >= 1 && |shiftN| == Clog2(|din|) + 1
    ensures SVal(Shift(true, true, din, shiftN)) == SVal(din) / Pow2(Val(shiftN))
  {
    var k := Val(shiftN);
    var e := din + Rep(k, Msb(din));
    RightIs(true, din, shiftN);
    SignExtendVal(din, k);
    SignedQuotient(e, k);
    assert e[k..] == Shift(true, true, din, shiftN);
  }

  /** Dropping the low k bits is floor division by 2^k for signed values too. */
  lemma SignedQuotient(e: Bits, k: nat)
    requires k < |e|
    ensures SVal(e[k..]) == SVal(e) / Pow2(k)
  {
    assert e == e[..k] + e[k..];
    SignedSplit(e, e[..k], e[k..]);
    ScaleDivMod(k, SVal(e[k..]), Val(e[..k]), SVal(e));
  }

  lemma SignedSplit(e: Bits, lo: Bits, hi: Bits)
    requires e == lo + hi && hi != []
    ensures SVal(e) == Scale(|lo|, SVal(hi)) + Val(lo) && Val(lo) < Pow2(|lo|)
  {
    ValAppend(lo, hi);
    ValBound(lo);
    SignedScale(e, hi, |lo|);
    Rearranged(SVal(e), Val(e), Scale(|lo|, SVal(hi)), Scale(|lo|, Val(hi)), Val(lo));
  }

  lemma Rearranged(signed: int, val: int, highSigned: int, high: int, low: int)
    requires val == low + high && signed - val == highSigned - high
    ensures signed == highSigned + low
  {
  }

  lemma SignedScale(e: Bits, hi: Bits, k: nat)
    requires hi != [] && |e| == k + |hi| && Msb(e) == Msb(hi)
    ensures SVal(e) - Val(e) == Scale(k, SVal(hi)) - Scale(k, Val(hi))
  {
    ScaleMinus(k, Val(hi), |hi|);
  }

  lemma ScaleMinus(k: nat, x: int, n: nat)
    ensures Scale(k, x - Pow2(n)) == Scale(k, x) - Pow2(k + n)
  {
    ScaleOne(k + n);
    ScaleOne(n);
    ScaleTwice(k, n, 1);
    ScaleAdd(k, x - Pow2(n), Pow2(n));
  }

  /** Left shift: multiplication by 2^k modulo 2^n. */
  lemma LeftMultiplies(sign: bool, din: Bits, shiftN: Bits)
    requires |din| >= 1 && |shiftN| == Clog2(|din|) + 1
    ensures Val(Shift(false, sign, din, shiftN)) == (Val(din) * Pow2(Val(shiftN))) % Pow2(|din|)
  {
    LeftIs(sign, din, shiftN);
    ZerosBelow(Val(shiftN), din);
    ValSplitDivMod(Rep(Val(shiftN), false) + din, |din|);
  }

  lemma ZerosBelow(k: nat, a: Bits)
    ensures Val(Rep(k, false) + a) == Val(a) * Pow2(k)
  {
    ValAppend(Rep(k, false), a);
    ValZeros(k);
    ScaleIsMul(k, Val(a));
  }

  /** The procedural block of shift: loops fill the input and the output of the right shifter
      bit by bit. */
  method ShiftBlock(rightEn: bool, sign: bool, din: Bits, shiftN: Bits) returns (out: Bits)
    requires |din| >= 1 && |shiftN| == Clog2(|din|) + 1
    ensures out == if rightEn then (din + Rep(Val(shiftN), sign && Msb(din)))[Val(shiftN)..]
                   else (Rep(Val(shiftN), false) + din)[..|din|]
  {
    var data := Swap(rightEn, din);
    var shifted := ShiftRight(rightEn && sign, data, shiftN);
    out := Swap(rightEn, shifted);
    if rightEn {
      RightIs(sign, din, shiftN);
    } else {
      LeftIs(sign, din, shiftN);
    }
  }

  method Swap(keep: bool, a: Bits) returns (out: Bits)
    ensures out == if keep then a else Reverse(a)
  {
    out := [];
    for k := 0 to |a|
      invariant |out| == k
      invariant forall j :: 0 <= j < k ==> out[j] == a[if keep then j else |a| - j - 1]
    {
      out := out + [if keep then a[k] else a[|a| - k - 1]];
    }
  }
}
