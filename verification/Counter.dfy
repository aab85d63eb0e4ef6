/** Flip-flop counters of any width (modules/counter.v): D, synchronous T, JK and ripple T. */
module Counter {
  import opened Bits

  /** The wire that enables bit i: every lower bit is about to wrap. */
  predicate EnAnd(count: Bits, en: bool, up: bool, i: nat)
    requires i <= |count|
  {
    if i == 0 then en else EnAnd(count, en, up, i - 1) && up == count[i - 1]
  }

  /** The flip-flops of flip_flop.v. */
  function FfD(en: bool, din: bool, q: bool): bool { if en then din else q }
  function FfT(t: bool, q: bool): bool { if t then !q else q }
  function FfJk(j: bool, k: bool, q: bool): bool {
    if j && k then !q else if j then true else if k then false else q
  }

  /** The characteristic equations: a D flip-flop loads or holds, a T flip-flop adds modulo 2, a JK flip-flop
      is set, cleared, held or toggled. */
  lemma FlipFlops(en: bool, j: bool, k: bool, q: bool)
    ensures FfD(en, j, q) == ((en && j) || (!en && q))
    ensures FfT(j, q) == (j != q)
    ensures FfJk(j, k, q) == ((j && !q) || (!k && q))
  {
  }

  // ----- next states, bit by bit

  function DBit(count: Bits, en: bool, up: bool, loadEn: bool, load: Bits, i: nat): bool
    requires i < |count| == |load|
  {
    FfD(en, if loadEn then load[i] else EnAnd(count, en, up, i) != count[i], count[i])
  }

  function TBit(count: Bits, en: bool, up: bool, i: nat): bool
    requires i < |count|
  {
    FfT(EnAnd(count, en, up, i), count[i])
  }

  function JkBit(count: Bits, resN: bool, en: bool, up: bool, i: nat): bool
    requires i < |count|
  {
    var jAll, kAll, d := en && resN, en || !resN, EnAnd(count, en, up, i);
    FfJk(if jAll != kAll then jAll else d, if jAll != kAll then kAll else d, count[i])
  }

  // ----- what they add up to

  /** next is count with the enabled bits flipped. */
  ghost predicate Flipped(count: Bits, next: Bits, en: bool, up: bool) {
    |next| == |count| && forall i :: 0 <= i < |count| ==> next[i] == (count[i] != EnAnd(count, en, up, i))
  }

  /** The low n bits of the step, with the carry or borrow into bit n. */
  lemma {:induction false} StepBelow(count: Bits, next: Bits, en: bool, up: bool, n: nat)
    requires Flipped(count, next, en, up) && n <= |count|
    ensures var out := if EnAnd(count, en, up, n) then Pow2(n) else 0;
      if up then Val(next[..n]) + out == Val(count[..n]) + B2N(en)
      else Val(next[..n]) + B2N(en) == Val(count[..n]) + out
  {
    if n > 0 {
      StepBelow(count, next, en, up, n - 1);
      PrefixMsb(count, n);
      PrefixMsb(next, n);
    }
  }

  function Delta(en: bool, up: bool): int { if !en then 0 else if up then 1 else -1 }

  /** Flipping the enabled bits counts one up or down modulo 2^n, or holds. */
  lemma Counts(count: Bits, next: Bits, en: bool, up: bool)
    requires Flipped(count, next, en, up)
    ensures next == ToBits(|count|, Val(count) + Delta(en, up))
  {
    var n := |count|;
    StepBelow(count, next, en, up, n);
    assert count[..n] == count && next[..n] == next;
    var out := EnAnd(count, en, up, n);
    ScaleBit(n, out);
    ScaleBit(n, !out);
    IsToBits(next, Val(count) + Delta(en, up), if up then B2N(out) else -(B2N(out) as int));
  }

  // ----- the counters as objects

  /** counter: D flip-flops.  A load needs en as well. */
  class DCounter {
    var count: Bits

    constructor (n: nat)
      ensures count == Rep(n, false)
    {
      count := Rep(n, false);
    }

    method Clock(en: bool, up: bool, loadEn: bool, load: Bits)
      requires |load| == |count|
      modifies this
      ensures count == if en && loadEn then load else ToBits(|old(count)|, Val(old(count)) + Delta(en, up))
    {
      var n, next := |count|, [];
      var enabled := en;
      for i := 0 to n
        invariant |next| == i && enabled == EnAnd(count, en, up, i)
        invariant forall j :: 0 <= j < i ==> next[j] == DBit(count, en, up, loadEn, load, j)
      {
        next := next + [FfD(en, if loadEn then load[i] else enabled != count[i], count[i])];
        enabled := enabled && up == count[i];
      }
      if en && loadEn {
        assert next == load;
      } else {
        AllOff(count, en, up);
        Counts(count, next, en, up);
      }
      count := next;
    }
  }

  lemma AllOff(count: Bits, en: bool, up: bool)
    ensures !en ==> forall i :: 0 <= i <= |count| ==> !EnAnd(count, en, up, i)
  {
    if !en {
      forall i | 0 <= i <= |count| ensures !EnAnd(count, en, up, i) {
        OffStays(count, en, up, 0, i);
      }
    }
  }

  lemma {:induction false} OffStays(count: Bits, en: bool, up: bool, i: nat, j: nat)
    requires i <= j <= |count| && !EnAnd(count, en, up, i)
    ensures !EnAnd(count, en, up, j)
  {
    if i < j {
      OffStays(count, en, up, i, j - 1);
    }
  }

  /** counter_tff_sync. */
  class TCounter {
    var count: Bits

    constructor (n: nat)
      ensures count == Rep(n, false)
    {
      count := Rep(n, false);
    }

    method Clock(en: bool, up: bool)
      modifies this
      ensures count == ToBits(|old(count)|, Val(old(count)) + Delta(en, up))
    {
      var n, next := |count|, [];
      var enabled := en;
      for i := 0 to n
        invariant |next| == i && enabled == EnAnd(count, en, up, i)
        invariant forall j :: 0 <= j < i ==> next[j] == TBit(count, en, up, j)
      {
        next := next + [FfT(enabled, count[i])];
        enabled := enabled && up == count[i];
      }
      Counts(count, next, en, up);
      count := next;
    }
  }

  /** counter_jkff: the reset is synchronous and wins. */
  class JkCounter {
    var count: Bits

    method Clock(resN: bool, en: bool, up: bool)
      modifies this
      ensures count == if !resN then Rep(|old(count)|, false)
                       else ToBits(|old(count)|, Val(old(count)) + Delta(en, up))
    {
      var n, next := |count|, [];
      var jAll, kAll := en && resN, en || !resN;
      var d := en;
      for i := 0 to n
        invariant |next| == i && d == EnAnd(count, en, up, i)
        invariant forall j :: 0 <= j < i ==> next[j] == JkBit(count, resN, en, up, j)
      {
        next := next + [FfJk(if jAll != kAll then jAll else d, if jAll != kAll then kAll else d, count[i])];
        d := d && up == count[i];
      }
      if resN {
        Counts(count, next, en, up);
      } else {
        assert next == Rep(n, false);
      }
      count := next;
    }
  }

  /** counter_tff_async: flip-flop i + 1 is clocked by flip-flop i, so a clock starts a ripple of
      flips that runs up the array until a flip makes no rising edge. */
  class RippleCounter {
    const up: bool
    const bits: array<bool>

    constructor (n: nat, up: bool)
      ensures fresh(bits) && bits[..] == Rep(n, false) && this.up == up
    {
      this.up := up;
      bits := new bool[n](_ => false);
      new;
      assert bits[..] == Rep(n, false);
    }

    /** The settled state after one clock, and how many flips it took. */
    method Clock(en: bool) returns (flips: nat)
      modifies bits
      ensures bits[..] == ToBits(bits.Length, Val(old(bits[..])) + Delta(en, up))
      ensures flips <= bits.Length && (flips == 0 <==> !en || bits.Length == 0)
    {
      ghost var was := bits[..];
      var edge := en;
      flips := 0;
      while edge && flips < bits.Length
        invariant flips <= bits.Length && edge == EnAnd(was, en, up, flips)
        invariant (flips > 0 ==> en) && (!edge && en ==> flips > 0)
        invariant forall j :: 0 <= j < flips ==> bits[j] == (was[j] != EnAnd(was, en, up, j))
        invariant forall j :: flips <= j < bits.Length ==> bits[j] == was[j]
        decreases bits.Length - flips
      {
        bits[flips] := !bits[flips];
        edge := up != bits[flips];
        flips := flips + 1;
      }
      forall j | flips <= j < bits.Length ensures !EnAnd(was, en, up, j) {
        OffStays(was, en, up, flips, j);
      }
      Counts(was, bits[..], en, up);
    }
  }

  // ----- runs

  datatype Tick = Tick(en: bool, up: bool)

  /** Up-counts minus down-counts among the first n. */
  function Balance(ticks: seq<Tick>, n: nat): int
    requires n <= |ticks|
  {
    if n == 0 then 0 else Balance(ticks, n - 1) + Delta(ticks[n - 1].en, ticks[n - 1].up)
  }

  ghost predicate CounterRun(counts: seq<Bits>, ticks: seq<Tick>) {
    |counts| == |ticks| + 1 && forall t :: 0 <= t < |ticks| ==> Clocked(counts, ticks, t)
  }

  ghost predicate Clocked(counts: seq<Bits>, ticks: seq<Tick>, t: nat)
    requires t < |ticks| && |counts| == |ticks| + 1
  {
    Flipped(counts[t], counts[t + 1], ticks[t].en, ticks[t].up)
  }

  /** Two steps that add before reducing. */
  lemma AddThenReduce(n: nat, v: int, d: int)
    ensures ToBits(n, Val(ToBits(n, v)) + d) == ToBits(n, v + d)
  {
    var q := Quotient(n, v);
    ToBitsWraps(n, Val(ToBits(n, v)) + d, q);
  }

  lemma CountsAt(counts: seq<Bits>, ticks: seq<Tick>, n: nat, width: nat, v: int)
    requires CounterRun(counts, ticks) && n < |ticks| && counts[n] == ToBits(width, v)
    ensures counts[n + 1] == ToBits(width, v + Delta(ticks[n].en, ticks[n].up))
  {
    assert Clocked(counts, ticks, n);
    Counts(counts[n], counts[n + 1], ticks[n].en, ticks[n].up);
    AddThenReduce(width, v, Delta(ticks[n].en, ticks[n].up));
  }

  /** Over every run the count is the start plus the ups minus the downs, modulo 2^width. */
  lemma {:induction false} RunCounts(counts: seq<Bits>, ticks: seq<Tick>, n: nat)
    requires CounterRun(counts, ticks) && n <= |ticks|
    ensures counts[n] == ToBits(|counts[0]|, Val(counts[0]) + Balance(ticks, n))
  {
    if n == 0 {
      ValToBits(counts[0]);
    } else {
      RunCounts(counts, ticks, n - 1);
      CountsAt(counts, ticks, n - 1, |counts[0]|, Val(counts[0]) + Balance(ticks, n - 1));
    }
  }
}
