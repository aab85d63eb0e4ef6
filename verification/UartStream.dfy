/** A whole line: frames one after another, back to back or with pauses between them, every one of
    them noisy (UART/uart_rx.sv:59-218). */
module UartStream {
  import opened Bits
  import opened UartLine
  import opened UartRx
  import opened UartNoise

  /** The receiver after a waveform. */
  function Final(c: Cfg, r: Rx, w: seq<bool>): Rx {
    if w == [] then r else Tick(c, Final(c, r, w[..|w| - 1]), w[|w| - 1])
  }

  /** The word announced in a state, if any. */
  function New(c: Cfg, r: Rx): seq<RxWord> { if Done(c, r) then [Out(c, r)] else [] }

  /** The words announced during it. */
  function Heard(c: Cfg, r: Rx, w: seq<bool>): seq<RxWord> {
    if w == [] then [] else Heard(c, r, w[..|w| - 1]) + New(c, Final(c, r, w))
  }

  lemma FinalOne(c: Cfg, r: Rx, w: seq<bool>, b: bool)
    ensures Final(c, r, w + [b]) == Tick(c, Final(c, r, w), b)
  {
    assert (w + [b])[..|w|] == w;
  }

  lemma HeardOne(c: Cfg, r: Rx, w: seq<bool>, b: bool)
    ensures Heard(c, r, w + [b]) == Heard(c, r, w) + New(c, Final(c, r, w + [b]))
  {
    assert (w + [b])[..|w|] == w;
  }

  lemma LastInput(w1: seq<bool>, w2: seq<bool>) returns (init: seq<bool>, b: bool)
    requires w2 != []
    ensures w2 == init + [b] && w1 + w2 == (w1 + init) + [b]
  {
    init, b := w2[..|w2| - 1], w2[|w2| - 1];
  }

  lemma {:induction false} FinalAppend(c: Cfg, r: Rx, w1: seq<bool>, w2: seq<bool>)
    ensures Final(c, r, w1 + w2) == Final(c, Final(c, r, w1), w2)
    decreases |w2|
  {
    if w2 == [] {
      assert w1 + w2 == w1;
    } else {
      var init, b := LastInput(w1, w2);
      FinalAppend(c, r, w1, init);
      FinalOne(c, r, w1 + init, b);
      FinalOne(c, Final(c, r, w1), init, b);
    }
  }

  lemma {:induction false} HeardAppend(c: Cfg, r: Rx, w1: seq<bool>, w2: seq<bool>)
    ensures Heard(c, r, w1 + w2) == Heard(c, r, w1) + Heard(c, Final(c, r, w1), w2)
    decreases |w2|
  {
    if w2 == [] {
      assert w1 + w2 == w1;
    } else {
      var init, b := LastInput(w1, w2);
      var r1 := Final(c, r, w1);
      HeardAppend(c, r, w1, init);
      FinalAppend(c, r, w1, init + [b]);
      HeardOne(c, r, w1 + init, b);
      HeardOne(c, r1, init, b);
      Regroup(Heard(c, r, w1), Heard(c, r1, init), New(c, Final(c, r1, init + [b])));
    }
  }

  lemma Regroup(a: seq<RxWord>, b: seq<RxWord>, c: seq<RxWord>)
    ensures a + (b + c) == (a + b) + c
  {
  }

  // ----- one frame

  /** The states along a waveform. */
  function States(c: Cfg, r: Rx, w: seq<bool>): (rs: seq<Rx>)
    ensures |rs| == |w| + 1
    ensures forall n :: 0 <= n <= |w| ==> rs[n] == Final(c, r, w[..n])
  {
    seq(|w| + 1, n requires 0 <= n <= |w| => Final(c, r, w[..n]))
  }

  lemma StatesRun(c: Cfg, r: Rx, w: seq<bool>)
    ensures Run(c, w, States(c, r, w)) && States(c, r, w)[0] == r
  {
    var rs := States(c, r, w);
    forall n | 0 <= n < |w| ensures Step(c, w, rs, n) {
      assert w[..n + 1][..n] == w[..n];
    }
  }

  /** The tick at which the word of a frame is announced. */
  function DoneAt(c: Cfg): int { BitStart(c, c.StopCell()) + SampleD(c) }

  /** Where a state in a frame is, and whether it announces. */
  lemma TrackedDone(c: Cfg, r: Rx, w: seq<bool>, cell: nat, k: nat)
    requires Tracks(c, r, w, cell, k) && cell <= c.StopCell()
    ensures Done(c, r) <==> cell == c.StopCell() && k == SampleD(c)
  {
  }

  lemma TrackedOut(c: Cfg, r: Rx, w: seq<bool>, byte: Reg8)
    requires Tracks(c, r, w, c.StopCell(), SampleD(c)) && Carries(c, w, byte)
    ensures Out(c, r) == Clean(c, byte)
  {
    var stop := c.StopCell();
    OutIsWordOf(c, r, Votes(c, w, stop), SamplesOf(c, w, stop));
    VotesOfFrame(c, w, byte, stop);
    assert NearlyAll(SamplesOf(c, w, stop), c.FrameBit(byte, stop));
    FrameWord(c, byte);
  }

  lemma TrackedEnd(c: Cfg, r: Rx, w: seq<bool>)
    requires Tracks(c, r, w, c.StopCell(), c.T() - 1)
    ensures Rests(c, r) && r.fsm == STOP
  {
  }

  /** A waveform from a start bit to the end of the first stop bit, with at most one wrong sample
      per bit. */
  ghost predicate Noisy(c: Cfg, body: seq<bool>, byte: Reg8) {
    |body| == BitStart(c, c.StopCell()) + c.T() - 1 && !body[0] && Carries(c, body, byte)
  }

  lemma FrameTracks(c: Cfg, r: Rx, body: seq<bool>, byte: Reg8, cell: nat, k: nat)
    requires Rests(c, r) && |body| > 0 && Noisy(c, body, byte)
    requires cell <= c.StopCell() && k < c.T() && BitStart(c, cell) + k <= |body|
    ensures Tracks(c, Final(c, r, body[..BitStart(c, cell) + k]), body, cell, k)
  {
    StatesRun(c, r, body);
    assert NearlyAll(SamplesOf(c, body, 0), c.FrameBit(byte, 0));
    Follows(c, body, States(c, r, body), cell, k);
  }

  lemma SameTick(c: Cfg, cell: nat, k: nat, n: nat)
    requires n == BitStart(c, cell) + k && k < c.T() && cell <= c.StopCell()
    ensures cell == c.StopCell() && k == SampleD(c) <==> n == DoneAt(c)
  {
    if n == DoneAt(c) && cell < c.StopCell() {
      StartsApart(c, cell, c.StopCell());
    }
  }

  lemma {:induction false} StartsApart(c: Cfg, cell: nat, later: nat)
    requires cell < later
    ensures BitStart(c, cell) + c.T() <= BitStart(c, later)
  {
    if cell < later - 1 {
      StartsApart(c, cell, later - 1);
    }
  }

  /** Exactly one tick of a frame announces a word, and it is the clean one. */
  lemma FrameTick(c: Cfg, r: Rx, body: seq<bool>, byte: Reg8, n: nat)
    requires Rests(c, r) && |body| > 0 && Noisy(c, body, byte) && 0 < n <= |body|
    ensures Done(c, Final(c, r, body[..n])) <==> n == DoneAt(c)
    ensures n == DoneAt(c) ==> Out(c, Final(c, r, body[..n])) == Clean(c, byte)
  {
    var cell, k := Locate(c, n);
    LocateBound(c, n, cell, c.StopCell());
    FrameTracks(c, r, body, byte, cell, k);
    TrackedDone(c, Final(c, r, body[..n]), body, cell, k);
    SameTick(c, cell, k, n);
    if n == DoneAt(c) {
      TrackedOut(c, Final(c, r, body[..n]), body, byte);
    }
  }

  lemma DoneLater(c: Cfg)
    ensures DoneAt(c) > 0
  {
    BitStartAtLeast(c, c.StopCell());
  }

  lemma PrefixOne(c: Cfg, r: Rx, w: seq<bool>, n: nat)
    requires 0 < n <= |w|
    ensures Heard(c, r, w[..n]) == Heard(c, r, w[..n - 1]) + New(c, Final(c, r, w[..n]))
  {
    assert w[..n][..n - 1] == w[..n - 1];
  }

  /** Tick number m announces word if m is d, and nothing otherwise. */
  ghost predicate SaysAt(c: Cfg, r: Rx, w: seq<bool>, m: nat, d: int, word: RxWord)
    requires m <= |w|
  {
    New(c, Final(c, r, w[..m])) == if m == d then [word] else []
  }

  lemma {:induction false} SaidOnce(c: Cfg, r: Rx, w: seq<bool>, n: nat, d: int, word: RxWord)
    requires n <= |w| && d > 0 && forall m :: 0 < m <= |w| ==> SaysAt(c, r, w, m, d, word)
    ensures Heard(c, r, w[..n]) == if n >= d then [word] else []
  {
    if n > 0 {
      SaidOnce(c, r, w, n - 1, d, word);
      PrefixOne(c, r, w, n);
      assert SaysAt(c, r, w, n, d, word);
    }
  }

  lemma FrameRests(c: Cfg, r: Rx, body: seq<bool>, byte: Reg8)
    requires Rests(c, r) && |body| > 0 && Noisy(c, body, byte)
    ensures Rests(c, Final(c, r, body)) && Final(c, r, body).fsm == STOP
  {
    var n := BitStart(c, c.StopCell()) + (c.T() - 1);
    assert body[..n] == body;
    FrameTracks(c, r, body, byte, c.StopCell(), c.T() - 1);
    TrackedEnd(c, Final(c, r, body[..n]), body);
  }

  lemma DoneInside(c: Cfg)
    ensures DoneAt(c) <= BitStart(c, c.StopCell()) + c.T() - 1
  {
  }

  /** One noisy frame: one clean word, and the receiver is ready for the next start bit. */
  lemma FrameHeard(c: Cfg, r: Rx, body: seq<bool>, byte: Reg8)
    requires Rests(c, r) && |body| > 0 && Noisy(c, body, byte)
    ensures Heard(c, r, body) == [Clean(c, byte)]
  {
    assert body[..|body|] == body;
    DoneInside(c);
    DoneLater(c);
    forall m | 0 < m <= |body| ensures SaysAt(c, r, body, m, DoneAt(c), Clean(c, byte)) {
      FrameTick(c, r, body, byte, m);
    }
    SaidOnce(c, r, body, |body|, DoneAt(c), Clean(c, byte));
  }

  // ----- the pause after it

  lemma FirstPause(c: Cfg, r: Rx)
    requires Rests(c, r)
    ensures var r' := Tick(c, r, true);
      r'.fsm == IDLE && Valid(c, r') && r'.ticks == if r.fsm == IDLE then c.T() - 1 else 0
  {
    AtRest(c, r, true, Samples(true, true, true));
  }

  lemma SecondPause(c: Cfg, r: Rx)
    requires Valid(c, r) && r.fsm == IDLE
    ensures Rests(c, Tick(c, r, true)) && Tick(c, r, true).fsm == IDLE
  {
  }

  /** In a pause nothing is announced.  After it the receiver is ready for a start bit, if and only
      if the pause behind a stop bit is not exactly one tick long. */
  lemma {:induction false} PauseRests(c: Cfg, r: Rx, g: nat)
    requires Rests(c, r)
    ensures Heard(c, r, Rep(g, true)) == []
    ensures g > 0 ==> Final(c, r, Rep(g, true)).fsm == IDLE && Valid(c, Final(c, r, Rep(g, true)))
    ensures Rests(c, Final(c, r, Rep(g, true))) <==> r.fsm == IDLE || g != 1
  {
    if g > 0 {
      PauseRests(c, r, g - 1);
      assert Rep(g, true)[..g - 1] == Rep(g - 1, true);
      if g == 1 {
        FirstPause(c, r);
      } else {
        SecondPause(c, Final(c, r, Rep(g - 1, true)));
      }
    }
  }

  // ----- dips on the idle line

  /** The line goes low, but the start bit this looks like is voted 1; then it is high again. */
  datatype Dip = Dip(wave: seq<bool>, high: nat) {
    function Whole(): seq<bool> { wave + Rep(high, true) }
  }

  ghost predicate Passing(c: Cfg, d: Dip) {
    && |d.wave| == BitStart(c, 1) && !d.wave[0] && Covers(c, d.wave, 0) && SamplesOf(c, d.wave, 0).Vote()
    && d.high > 0
  }

  lemma ValidStep(c: Cfg, r: Rx, din: bool)
    requires Valid(c, r)
    ensures Valid(c, Tick(c, r, din))
  {
  }

  lemma {:induction false} ValidFinal(c: Cfg, r: Rx, w: seq<bool>)
    requires Valid(c, r)
    ensures Valid(c, Final(c, r, w))
  {
    if w != [] {
      ValidFinal(c, r, w[..|w| - 1]);
      ValidStep(c, Final(c, r, w[..|w| - 1]), w[|w| - 1]);
    }
  }

  lemma {:induction false} SilentPrefix(c: Cfg, r: Rx, w: seq<bool>, n: nat)
    requires n <= |w| && forall m :: 0 <= m <= |w| ==> !Done(c, States(c, r, w)[m])
    ensures Heard(c, r, w[..n]) == []
  {
    if n > 0 {
      SilentPrefix(c, r, w, n - 1);
      PrefixOne(c, r, w, n);
      assert !Done(c, States(c, r, w)[n]);
    }
  }

  /** A start bit voted 1 is over after one bit, and nothing was announced. */
  lemma WaveDropped(c: Cfg, r: Rx, w: seq<bool>)
    requires Rests(c, r) && |w| == BitStart(c, 1) && !w[0] && Covers(c, w, 0) && SamplesOf(c, w, 0).Vote()
    ensures Heard(c, r, w) == [] && Final(c, r, w).fsm == IDLE && Valid(c, Final(c, r, w))
  {
    StatesRun(c, r, w);
    FalseStartDropped(c, w, States(c, r, w));
    assert w[..|w|] == w;
    SilentPrefix(c, r, w, |w|);
    ValidFinal(c, r, w);
  }

  lemma OneHigh(c: Cfg, r: Rx)
    requires Valid(c, r) && r.fsm == IDLE
    ensures Heard(c, r, [true]) == [] && Rests(c, Final(c, r, [true])) && Final(c, r, [true]).fsm == IDLE
  {
    SecondPause(c, r);
    assert [true][..0] == [];
    assert Final(c, r, [true]) == Tick(c, r, true);
  }

  /** From IDLE, one high tick makes the receiver ready, and it stays so. */
  lemma HighRests(c: Cfg, r: Rx, n: nat)
    requires Valid(c, r) && r.fsm == IDLE && n > 0
    ensures Heard(c, r, Rep(n, true)) == []
    ensures Rests(c, Final(c, r, Rep(n, true))) && Final(c, r, Rep(n, true)).fsm == IDLE
  {
    var r1 := Final(c, r, [true]);
    OneHigh(c, r);
    PauseRests(c, r1, n - 1);
    assert Rep(n, true) == [true] + Rep(n - 1, true);
    FinalAppend(c, r, [true], Rep(n - 1, true));
    HeardAppend(c, r, [true], Rep(n - 1, true));
    if n == 1 {
      assert Rep(0, true) == [];
    }
  }

  lemma DipDropped(c: Cfg, r: Rx, d: Dip)
    requires Rests(c, r) && Passing(c, d)
    ensures Heard(c, r, d.Whole()) == [] && Rests(c, Final(c, r, d.Whole()))
  {
    WaveDropped(c, r, d.wave);
    HighRests(c, Final(c, r, d.wave), d.high);
    FinalAppend(c, r, d.wave, Rep(d.high, true));
    HeardAppend(c, r, d.wave, Rep(d.high, true));
  }

  function Dips(ds: seq<Dip>): seq<bool> {
    if ds == [] then [] else Dips(ds[..|ds| - 1]) + ds[|ds| - 1].Whole()
  }

  lemma {:induction false} DipsDropped(c: Cfg, r: Rx, ds: seq<Dip>)
    requires Rests(c, r) && forall d :: d in ds ==> Passing(c, d)
    ensures Heard(c, r, Dips(ds)) == [] && Rests(c, Final(c, r, Dips(ds)))
  {
    if ds != [] {
      var before, d := ds[..|ds| - 1], ds[|ds| - 1];
      DipsDropped(c, r, before);
      DipDropped(c, Final(c, r, Dips(before)), d);
      FinalAppend(c, r, Dips(before), d.Whole());
      HeardAppend(c, r, Dips(before), d.Whole());
    }
  }

  // ----- the line

  /** A frame and what follows its first stop bit: the other stop bits, the idle line, and dips. */
  datatype Burst = Burst(byte: Reg8, body: seq<bool>, pause: nat, dips: seq<Dip>) {
    function Gap(): seq<bool> { Rep(pause, true) + Dips(dips) }
  }

  ghost predicate Good(c: Cfg, b: Burst) {
    |b.body| > 0 && Noisy(c, b.body, b.byte) && b.pause != 1 && forall d :: d in b.dips ==> Passing(c, d)
  }

  function Waveform(bs: seq<Burst>): seq<bool> {
    if bs == [] then [] else Waveform(bs[..|bs| - 1]) + (bs[|bs| - 1].body + bs[|bs| - 1].Gap())
  }

  function Words(c: Cfg, bs: seq<Burst>): seq<RxWord> {
    if bs == [] then [] else Words(c, bs[..|bs| - 1]) + [Clean(c, bs[|bs| - 1].byte)]
  }

  lemma GapRests(c: Cfg, r: Rx, b: Burst)
    requires Rests(c, r) && Good(c, b)
    ensures Heard(c, r, b.Gap()) == [] && Rests(c, Final(c, r, b.Gap()))
  {
    PauseRests(c, r, b.pause);
    DipsDropped(c, Final(c, r, Rep(b.pause, true)), b.dips);
    FinalAppend(c, r, Rep(b.pause, true), Dips(b.dips));
    HeardAppend(c, r, Rep(b.pause, true), Dips(b.dips));
  }

  lemma BurstHeard(c: Cfg, r: Rx, b: Burst)
    requires Rests(c, r) && Good(c, b)
    ensures Heard(c, r, b.body + b.Gap()) == [Clean(c, b.byte)]
    ensures Rests(c, Final(c, r, b.body + b.Gap()))
  {
    FrameHeard(c, r, b.body, b.byte);
    FrameRests(c, r, b.body, b.byte);
    GapRests(c, Final(c, r, b.body), b);
    FinalAppend(c, r, b.body, b.Gap());
    HeardAppend(c, r, b.body, b.Gap());
  }

  /** Noise immunity of a whole line: any number of frames, back to back or with pauses of at least
      two ticks, each with at most one wrong sample per bit, arrive complete, in order and
      without error flags; dips in the pauses that are voted away cost nothing. */
  lemma {:induction false} LineHeard(c: Cfg, r: Rx, bs: seq<Burst>)
    requires Rests(c, r) && forall b :: b in bs ==> Good(c, b)
    ensures Heard(c, r, Waveform(bs)) == Words(c, bs) && Rests(c, Final(c, r, Waveform(bs)))
  {
    if bs != [] {
      var before, b := bs[..|bs| - 1], bs[|bs| - 1];
      LineHeard(c, r, before);
      BurstHeard(c, Final(c, r, Waveform(before)), b);
      FinalAppend(c, r, Waveform(before), b.body + b.Gap());
      HeardAppend(c, r, Waveform(before), b.body + b.Gap());
    }
  }
}
