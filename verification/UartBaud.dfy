/** The baud generator behind the UART's sense of time (UART/uart.sv:43-49, 105-117): how many
    system clocks lie between two baud ticks. */
module UartBaud {
  import opened Bits
  import ClockDivider
  import L = UartLoopback

  /** The generator's output t system clocks after its reset: polarity 1, no extra phase. */
  predicate Baud(w: nat, div: nat, t: nat) { ClockDivider.After(w, div, true, false, t).baud }

  /** The UART is clocked by its rising edges. */
  predicate TickAt(w: nat, div: nat, t: nat) { t > 0 && Baud(w, div, t) && !Baud(w, div, t - 1) }

  lemma BaudIs(w: nat, div: nat, t: nat)
    requires 2 <= div < Pow2(w)
    ensures Baud(w, div, t) <==> t % div < div / 2
  {
    ClockDivider.ClosedForm(w, div, true, false, t);
  }

  /** One tick in every div clocks. */
  lemma TickEveryDiv(w: nat, div: nat, t: nat)
    requires 2 <= div < Pow2(w) && t > 0
    ensures TickAt(w, div, t) <==> t % div == 0
  {
    BaudIs(w, div, t);
    BaudIs(w, div, t - 1);
    ClockDivider.NextRemainder(t - 1, div);
  }

  /** t2 is the next tick after t1. */
  ghost predicate NextTick(w: nat, div: nat, t1: nat, t2: nat) {
    t1 < t2 && TickAt(w, div, t1) && TickAt(w, div, t2) && forall t :: t1 < t < t2 ==> !TickAt(w, div, t)
  }

  lemma TicksApart(w: nat, div: nat, t1: nat, t2: nat)
    requires 2 <= div < Pow2(w) && NextTick(w, div, t1, t2)
    ensures t2 - t1 == div
  {
    TickEveryDiv(w, div, t1);
    TickEveryDiv(w, div, t2);
    TickEveryDiv(w, div, t1 + div);
    ClockDivider.OnePeriodOn(t1, div);
    if t2 < t1 + div {
      NoMultipleBetween(t1, t2, div);
    }
  }

  lemma NoMultipleBetween(t1: nat, t2: nat, div: nat)
    requires div >= 2 && t1 % div == 0 && t1 < t2 < t1 + div
    ensures t2 % div != 0
  {
    DivUnique(t2, t1 / div, t2 - t1, div);
  }

  /** The receive path uses the synchroniser when one of the bits 8 to 2 of the divisor is set. */
  predicate SyncUsed(divisor: Bits)
    requires |divisor| == 16
  {
    OrAll(divisor[2..9])
  }

  /** Then the divisor is at least 4. */
  lemma SyncMeansFour(divisor: Bits)
    requires |divisor| == 16 && SyncUsed(divisor)
    ensures Val(divisor) >= 4
  {
    var i :| 0 <= i < 7 && divisor[2..9][i];
    assert divisor[2..][i];
    ValZeroIff(divisor[2..]);
    ValSplit(divisor, 2);
  }

  /** The generator keeps the promise that the UART's runs rely on: between two ticks lie exactly
      div system clocks, at least two, and at least four where the synchroniser is in use. */
  lemma BaudIsTimely(k: L.Conf, p: L.Period, divisor: Bits, t1: nat, t2: nat)
    requires |divisor| == 16 && Val(divisor) >= 2 && (k.sync ==> SyncUsed(divisor))
    requires NextTick(16, Val(divisor), t1, t2) && |p.clks| == t2 - t1
    ensures |p.clks| == Val(divisor) && (k.sync ==> |p.clks| >= 4) && L.Timely(k, p)
  {
    ValBound(divisor);
    TicksApart(16, Val(divisor), t1, t2);
    if k.sync {
      SyncMeansFour(divisor);
    }
  }

  /** The ticks go on for ever, div clocks apart. */
  lemma NextTickExists(div: nat, n: nat)
    requires 2 <= div < Pow2(16) && n > 0 && n % div == 0
    ensures NextTick(16, div, n, n + div)
  {
    ClockDivider.OnePeriodOn(n, div);
    TickEveryDiv(16, div, n);
    TickEveryDiv(16, div, n + div);
    forall t | n < t < n + div ensures !TickAt(16, div, t) {
      TickEveryDiv(16, div, t);
      NoMultipleBetween(n, t, div);
    }
  }
}
