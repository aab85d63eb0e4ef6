/** The clock divider (modules/clock_divider.sv) for a counter of any width. */
module ClockDivider {
  import opened Bits

  datatype State = State(counter: nat, baud: bool)

  /** Reset: with phase 1 the count starts from 0. */
  function Reset(polarity: bool, phase: bool): State { State(if phase then 0 else 1, polarity) }

  /** One clock of a divider of width w. */
  function Step(w: nat, div: nat, s: State): State {
    State(if s.counter == div then 1 else (s.counter + 1) % Pow2(w),
          if s.counter == div || s.counter == div / 2 then !s.baud else s.baud)
  }

  /** The output multiplexer: dlm_set, dll_set and div[0] choose between the divided clock, the
      input clock and the idle level. */
  predicate ClkOut(div: Bits, clkIn: bool, baud: bool, polarity: bool)
    requires |div| >= 2
  {
    var w := |div|;
    var dlm := w >= 8 && OrAll(div[8..]);
    var dll := if w >= 8 then OrAll(div[1..8]) else OrAll(div[1..]);
    if dlm || dll then baud else if div[0] then clkIn else polarity
  }

  function After(w: nat, div: nat, polarity: bool, phase: bool, t: nat): State {
    if t == 0 then Reset(polarity, phase) else Step(w, div, After(w, div, polarity, phase, t - 1))
  }

  // ----- the closed form

  lemma NextRemainder(t: nat, div: nat)
    requires div >= 2
    ensures (t + 1) % div == if t % div == div - 1 then 0 else t % div + 1
  {
    var q, r := t / div, t % div;
    if r == div - 1 {
      assert t + 1 == (q + 1) * div + 0 by {
        assert (q + 1) * div == q * div + div;
      }
      DivUnique(t + 1, q + 1, 0, div);
    } else {
      DivUnique(t + 1, q, r + 1, div);
    }
  }

  /** The state r clocks into a period. */
  function Within(div: nat, polarity: bool, r: nat): State { State(1 + r, polarity != (r >= div / 2)) }

  /** The state t clocks after the count stood at 1. */
  function Closed(div: nat, polarity: bool, t: nat): State
    requires div >= 2
  {
    Within(div, polarity, t % div)
  }

  lemma Small(x: nat, m: nat)
    requires x < m
    ensures x % m == x
  {
  }

  lemma WithinStep(w: nat, div: nat, polarity: bool, r: nat)
    requires 2 <= div < Pow2(w) && r < div
    ensures Step(w, div, Within(div, polarity, r)) == Within(div, polarity, if r == div - 1 then 0 else r + 1)
  {
    if r < div - 1 {
      Small(r + 2, Pow2(w));
    }
  }

  lemma ClosedStep(w: nat, div: nat, polarity: bool, t: nat)
    requires 2 <= div < Pow2(w)
    ensures Step(w, div, Closed(div, polarity, t)) == Closed(div, polarity, t + 1)
  {
    NextRemainder(t, div);
    WithinStep(w, div, polarity, t % div);
  }

  /** For every constant divisor from 2 up: the counter stays in 1 .. div, and after t clocks the
      output differs from the polarity exactly in the second part of each div clocks.  With phase
      1 the same happens one clock later, from a count of 0. */
  lemma {:induction false} ClosedForm(w: nat, div: nat, polarity: bool, phase: bool, t: nat)
    requires 2 <= div < Pow2(w)
    ensures After(w, div, polarity, phase, t)
         == if !phase then Closed(div, polarity, t)
            else if t == 0 then State(0, polarity) else Closed(div, polarity, t - 1)
  {
    if t == 0 {
      SmallRemainder(div);
    } else {
      ClosedForm(w, div, polarity, phase, t - 1);
      if !phase {
        ClosedStep(w, div, polarity, t - 1);
      } else if t == 1 {
        SmallRemainder(div);
      } else {
        ClosedStep(w, div, polarity, t - 2);
      }
    }
  }

  lemma SmallRemainder(div: nat)
    requires div >= 2
    ensures 0 % div == 0 && div / 2 > 0
  {
  }

  lemma OnePeriodOn(s: nat, div: nat)
    requires div >= 2
    ensures (s + div) % div == s % div
  {
    assert (s / div + 1) * div == s / div * div + div;
    DivUnique(s + div, s / div + 1, s % div, div);
  }

  /** The period is div clocks, of which div / 2 are at the idle level. */
  lemma Period(w: nat, div: nat, polarity: bool, phase: bool, t: nat)
    requires 2 <= div < Pow2(w) && (phase ==> t > 0)
    ensures var now, later := After(w, div, polarity, phase, t), After(w, div, polarity, phase, t + div);
      now == later && (now.baud == polarity <==> now.counter <= div / 2)
  {
    ClosedForm(w, div, polarity, phase, t);
    ClosedForm(w, div, polarity, phase, t + div);
    OnePeriodOn(if phase then t - 1 else t, div);
  }

  lemma OrAllSplit(a: Bits, n: nat)
    requires n <= |a|
    ensures OrAll(a) <==> OrAll(a[..n]) || OrAll(a[n..])
  {
    if OrAll(a) {
      var i :| 0 <= i < |a| && a[i];
      if i < n {
        assert a[..n][i];
      } else {
        assert a[n..][i - n];
      }
    }
    if OrAll(a[n..]) {
      var i :| 0 <= i < |a| - n && a[n..][i];
      assert a[n + i];
    }
  }

  /** The multiplexer shows the divided clock for every divisor from 2 up, the input clock for 1
      and the idle level for 0. */
  lemma OutputSelect(div: Bits, clkIn: bool, baud: bool, polarity: bool)
    requires |div| >= 2
    ensures ClkOut(div, clkIn, baud, polarity)
         == if Val(div) >= 2 then baud else if Val(div) == 1 then clkIn else polarity
  {
    ValZeroIff(div[1..]);
    if |div| >= 8 {
      OrAllSplit(div[1..], 7);
      assert div[1..][..7] == div[1..8] && div[1..][7..] == div[8..];
    }
  }

  class Divider {
    const width: nat
    const polarity: bool
    const phase: bool
    var counter: nat
    var baud: bool
    ghost var clocks: nat

    /** The divisor has been div ever since the reset. */
    ghost predicate Divides(div: nat)
      reads this
    {
      After(width, div, polarity, phase, clocks) == State(counter, baud)
    }

    constructor (width: nat, polarity: bool, phase: bool)
      ensures this.width == width && this.polarity == polarity && this.phase == phase && clocks == 0
      ensures forall div :: Divides(div)
    {
      this.width, this.polarity, this.phase := width, polarity, phase;
      counter, baud, clocks := if phase then 0 else 1, polarity, 0;
    }

    /** One clock.  After t clocks with the same divisor from 2 up, the output differs from the
        polarity exactly in the second part of every div clocks. */
    method Clock(div: nat)
      modifies this
      ensures clocks == old(clocks) + 1
      ensures State(counter, baud) == Step(width, div, State(old(counter), old(baud)))
      ensures old(Divides(div)) ==> Divides(div)
      ensures old(Divides(div)) && 2 <= div < Pow2(width) ==>
        var t := if phase then clocks - 1 else clocks;
        counter == 1 + t % div && baud == (polarity != (t % div >= div / 2))
    {
      var cycleFull := counter == div;
      var switchClk := cycleFull || counter == div / 2;
      counter := if cycleFull then 1 else (counter + 1) % Pow2(width);
      baud := if switchClk then !baud else baud;
      clocks := clocks + 1;
      if 2 <= div < Pow2(width) {
        ClosedForm(width, div, polarity, phase, clocks);
      }
    }
  }
}
