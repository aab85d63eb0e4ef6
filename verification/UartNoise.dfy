/** What the receiver makes of an arbitrary waveform: only the votes matter
    (UART/uart_rx.sv:59-81, 143-218). */
module UartNoise {
  import opened Bits
  import opened UartLine
  import opened UartRx

  /** rs are the states of the receiver before each tick of the waveform w and after the last. */
  ghost predicate Run(c: Cfg, w: seq<bool>, rs: seq<Rx>) {
    |rs| == |w| + 1 && forall n :: 0 <= n < |w| ==> Step(c, w, rs, n)
  }

  ghost predicate Step(c: Cfg, w: seq<bool>, rs: seq<Rx>, n: nat)
    requires n < |w| && |rs| == |w| + 1
  {
    rs[n + 1] == Tick(c, rs[n], w[n])
  }

  /** The tick at which bit number cell starts, counting from a start bit first seen low at
      tick 0: the receiver is one tick behind the line. */
  function BitStart(c: Cfg, cell: nat): nat {
    if cell == 0 then 1 else BitStart(c, cell - 1) + c.T()
  }

  /** The waveform reaches to the end of bit number cell's samples. */
  predicate Covers(c: Cfg, w: seq<bool>, cell: nat) { BitStart(c, cell) + SampleC(c) < |w| }

  function SamplesOf(c: Cfg, w: seq<bool>, cell: nat): Samples
    requires Covers(c, w, cell)
  {
    var s := BitStart(c, cell);
    Samples(w[s + SampleA(c)], w[s + SampleB(c)], w[s + SampleC(c)])
  }

  /** The votes of the first m bits. */
  function Votes(c: Cfg, w: seq<bool>, m: nat): (v: Bits)
    requires m > 0 ==> Covers(c, w, m - 1)
    ensures |v| == m
  {
    if m == 0 then []
    else
      BitStartMono(c, m - 1);
      Votes(c, w, m - 1) + [SamplesOf(c, w, m - 1).Vote()]
  }

  lemma BitStartMono(c: Cfg, cell: nat)
    ensures cell > 0 ==> BitStart(c, cell - 1) < BitStart(c, cell)
  {
  }

  /** The receiver is idle, or at the last tick of a stop bit. */
  ghost predicate Rests(c: Cfg, r: Rx) {
    Valid(c, r) && (r.fsm == IDLE || r.fsm == STOP) && r.ticks == c.T() - 1
  }

  /** The receiver is ready for a start bit, and the waveform begins with one. */
  ghost predicate Ready(c: Cfg, r: Rx, w: seq<bool>) { Rests(c, r) && |w| > 0 && !w[0] }

  /** After n ticks the receiver is k ticks into bit number cell and has the votes of the
      earlier bits. */
  ghost predicate Tracks(c: Cfg, rn: Rx, w: seq<bool>, cell: nat, k: nat) {
    match rn
    case Rx(_, ticks, _, _, _, _, _, _) =>
      && ticks == k
      && Covers(c, w, cell)
      && (cell > 0 ==> Covers(c, w, cell - 1))
      && At(c, rn, Votes(c, w, cell), SamplesOf(c, w, cell))
  }

  lemma TracksStart(c: Cfg, r: Rx, w: seq<bool>, r': Rx)
    requires Ready(c, r, w) && Covers(c, w, 0) && r' == Tick(c, r, w[0])
    ensures Tracks(c, r', w, 0, 0)
  {
    AtRest(c, r, w[0], SamplesOf(c, w, 0));
  }

  lemma TracksInside(c: Cfg, rn: Rx, w: seq<bool>, cell: nat, k: nat, n: nat, r': Rx)
    requires 0 < k < c.T() && n == BitStart(c, cell) + k - 1 < |w|
    requires Tracks(c, rn, w, cell, k - 1) && r' == Tick(c, rn, w[n])
    ensures Tracks(c, r', w, cell, k)
  {
    AtInside(c, rn, Votes(c, w, cell), SamplesOf(c, w, cell), w[n]);
  }

  lemma TracksEnd(c: Cfg, rn: Rx, w: seq<bool>, cell: nat, din: bool, r': Rx)
    requires 0 < cell <= c.StopCell() && Covers(c, w, cell) && Covers(c, w, 0) && !SamplesOf(c, w, 0).Vote()
    requires Tracks(c, rn, w, cell - 1, c.T() - 1) && r' == Tick(c, rn, din)
    ensures Tracks(c, r', w, cell, 0)
  {
    AtEnd(c, rn, Votes(c, w, cell - 1), SamplesOf(c, w, cell - 1), din, SamplesOf(c, w, cell));
  }

  lemma {:induction false} FollowsInside(c: Cfg, w: seq<bool>, rs: seq<Rx>, cell: nat, k: nat, n: nat)
    requires Run(c, w, rs) && k < c.T() && n == BitStart(c, cell) + k <= |w|
    requires Tracks(c, rs[BitStart(c, cell)], w, cell, 0)
    ensures Tracks(c, rs[n], w, cell, k)
  {
    if k > 0 {
      FollowsInside(c, w, rs, cell, k - 1, n - 1);
      assert Step(c, w, rs, n - 1);
      TracksInside(c, rs[n - 1], w, cell, k, n - 1, rs[n]);
    }
  }

  lemma {:induction false} FollowsCell(c: Cfg, w: seq<bool>, rs: seq<Rx>, cell: nat, n: nat)
    requires Run(c, w, rs) && Ready(c, rs[0], w) && cell <= c.StopCell() && Covers(c, w, cell)
    requires cell > 0 ==> Covers(c, w, 0) && !SamplesOf(c, w, 0).Vote()
    requires n == BitStart(c, cell)
    ensures Tracks(c, rs[n], w, cell, 0)
  {
    assert Step(c, w, rs, n - 1);
    if cell > 0 {
      FollowsCell(c, w, rs, cell - 1, n - c.T());
      FollowsInside(c, w, rs, cell - 1, c.T() - 1, n - 1);
      TracksEnd(c, rs[n - 1], w, cell, w[n - 1], rs[n]);
    } else {
      TracksStart(c, rs[0], w, rs[1]);
    }
  }

  /** k ticks into bit number cell the receiver has exactly the votes of the earlier bits. */
  lemma Follows(c: Cfg, w: seq<bool>, rs: seq<Rx>, cell: nat, k: nat)
    requires Run(c, w, rs) && Ready(c, rs[0], w) && cell <= c.StopCell() && k < c.T()
    requires Covers(c, w, cell) && BitStart(c, cell) + k <= |w|
    requires cell > 0 ==> Covers(c, w, 0) && !SamplesOf(c, w, 0).Vote()
    ensures Tracks(c, rs[BitStart(c, cell) + k], w, cell, k)
  {
    FollowsCell(c, w, rs, cell, BitStart(c, cell));
    FollowsInside(c, w, rs, cell, k, BitStart(c, cell) + k);
  }

  /** The word is announced once, at a fixed tick of the stop bit, and it is the word the votes
      stand for: nothing else about the waveform matters. */
  lemma VotesDecide(c: Cfg, w: seq<bool>, rs: seq<Rx>)
    requires Run(c, w, rs) && Ready(c, rs[0], w) && |w| == BitStart(c, c.StopCell()) + SampleD(c)
    requires Covers(c, w, 0) && !SamplesOf(c, w, 0).Vote()
    ensures forall n :: 0 <= n < |w| ==> !Done(c, rs[n])
    ensures var r' := rs[|w|];
      && Done(c, r') && Covers(c, w, c.StopCell() - 1)
      && Out(c, r') == WordOf(c, Votes(c, w, c.StopCell()), SamplesOf(c, w, c.StopCell()).Vote())
  {
    var stop := c.StopCell();
    Follows(c, w, rs, stop, SampleD(c));
    OutIsWordOf(c, rs[|w|], Votes(c, w, stop), SamplesOf(c, w, stop));
    forall n | 0 <= n < |w|
      ensures !Done(c, rs[n])
    {
      SilentBefore(c, w, rs, n);
    }
  }

  lemma SilentBefore(c: Cfg, w: seq<bool>, rs: seq<Rx>, n: nat)
    requires Run(c, w, rs) && Ready(c, rs[0], w) && n < |w| == BitStart(c, c.StopCell()) + SampleD(c)
    requires Covers(c, w, 0) && !SamplesOf(c, w, 0).Vote()
    ensures !Done(c, rs[n])
  {
    if n > 0 {
      var cell, k := Locate(c, n);
      LocateBound(c, n, cell, c.StopCell());
      Follows(c, w, rs, cell, k);
    }
  }

  /** Every tick after the first lies in some bit. */
  lemma {:induction false} Locate(c: Cfg, n: nat) returns (cell: nat, k: nat)
    requires n > 0
    ensures k < c.T() && n == BitStart(c, cell) + k
  {
    if n <= c.T() {
      cell, k := 0, n - 1;
    } else {
      cell, k := Locate(c, n - c.T());
      cell := cell + 1;
    }
  }

  lemma {:induction false} LocateBound(c: Cfg, n: nat, cell: nat, stop: nat)
    requires BitStart(c, cell) <= n < BitStart(c, stop) + c.T()
    ensures cell <= stop && BitStart(c, cell) <= BitStart(c, stop)
    decreases cell
  {
    if cell > 0 {
      if stop > 0 {
        LocateBound(c, if n >= c.T() then n - c.T() else 0, cell - 1, stop - 1);
      } else {
        BitStartAtLeast(c, cell);
      }
    }
  }

  lemma {:induction false} BitStartAtLeast(c: Cfg, cell: nat)
    ensures BitStart(c, cell) >= 1
    ensures cell > 0 ==> BitStart(c, cell) >= 1 + c.T()
  {
    if cell > 0 {
      BitStartAtLeast(c, cell - 1);
    }
  }

  /** A start bit that is voted 1 is dropped: the receiver returns to IDLE after one bit and
      has announced nothing. */
  lemma FalseStartDropped(c: Cfg, w: seq<bool>, rs: seq<Rx>)
    requires Run(c, w, rs) && Ready(c, rs[0], w) && |w| == BitStart(c, 1)
    requires Covers(c, w, 0) && SamplesOf(c, w, 0).Vote()
    ensures rs[|w|].fsm == IDLE
    ensures forall n :: 0 <= n <= |w| ==> !Done(c, rs[n])
  {
    assert BitStart(c, 0) == 1;
    forall n | 0 < n < |w|
      ensures rs[n].fsm == START
    {
      Follows(c, w, rs, 0, n - 1);
    }
    Follows(c, w, rs, 0, c.T() - 1);
    assert Step(c, w, rs, |w| - 1);
    FalseStart(c, rs[|w| - 1], SamplesOf(c, w, 0), w[|w| - 1]);
  }

  /** At most one of the three samples differs from the bit that was sent. */
  predicate NearlyAll(s: Samples, bit: bool) {
    B2N(s.a != bit) + B2N(s.b != bit) + B2N(s.c != bit) <= 1
  }

  /** The samples lie where the source puts them: in the middle of the bit and as far on both sides, 1 tick
      at 8 ticks a bit and otherwise 2. */
  lemma SampleTicks(c: Cfg)
    ensures c.T() == 8 ==> SampleA(c) == 3 && SampleB(c) == 4 && SampleC(c) == 5
    ensures c.T() == 16 ==> SampleA(c) == 6 && SampleB(c) == 8 && SampleC(c) == 10
    ensures c.T() == 32 ==> SampleA(c) == 14 && SampleB(c) == 16 && SampleC(c) == 18
    ensures 0 < SampleA(c) < SampleB(c) < SampleC(c) < SampleD(c) < c.T() - 1
  {
  }

  /** Within bit number cell the line is at bit, but for g ticks from tick number from on. */
  ghost predicate Glitch(c: Cfg, w: seq<bool>, cell: nat, bit: bool, from: int, g: int) {
    var s := BitStart(c, cell);
    forall n :: s <= n < s + c.T() && n < |w| && !(s + from <= n < s + from + g) ==> w[n] == bit
  }

  /** A glitch no longer than the distance between two samples, 1 tick at 8 ticks a bit and otherwise 2,
      never changes the vote, wherever in the bit it falls. */
  lemma GlitchFiltered(c: Cfg, w: seq<bool>, cell: nat, bit: bool, from: int, g: int)
    requires Covers(c, w, cell) && Glitch(c, w, cell, bit, from, g) && g <= if c.T() > 8 then 2 else 1
    ensures NearlyAll(SamplesOf(c, w, cell), bit) && SamplesOf(c, w, cell).Vote() == bit
  {
    SampleTicks(c);
  }

  /** The waveform carries byte with at most one wrong sample in every bit. */
  ghost predicate Carries(c: Cfg, w: seq<bool>, byte: Reg8) {
    && (forall cell :: 0 <= cell <= c.StopCell() ==> Covers(c, w, cell))
    && (forall cell :: 0 <= cell <= c.StopCell() ==> NearlyAll(SamplesOf(c, w, cell), c.FrameBit(byte, cell)))
  }

  lemma {:induction false} VotesOfFrame(c: Cfg, w: seq<bool>, byte: Reg8, m: nat)
    requires Carries(c, w, byte) && m <= c.StopCell()
    ensures m > 0 ==> Covers(c, w, m - 1)
    ensures Votes(c, w, m) == c.Frame(byte, m)
  {
    if m > 0 {
      VotesOfFrame(c, w, byte, m - 1);
      assert NearlyAll(SamplesOf(c, w, m - 1), c.FrameBit(byte, m - 1));
    }
  }

  /** Noise immunity: with at most one wrong sample per bit, and anything at all between the
      samples, the byte arrives masked and without error flags. */
  lemma NoiseImmunity(c: Cfg, w: seq<bool>, rs: seq<Rx>, byte: Reg8)
    requires Run(c, w, rs) && Ready(c, rs[0], w) && |w| == BitStart(c, c.StopCell()) + SampleD(c)
    requires Carries(c, w, byte)
    ensures forall n :: 0 <= n < |w| ==> !Done(c, rs[n])
    ensures Done(c, rs[|w|]) && Out(c, rs[|w|]) == Clean(c, byte)
  {
    var stop := c.StopCell();
    assert NearlyAll(SamplesOf(c, w, 0), c.FrameBit(byte, 0));
    assert NearlyAll(SamplesOf(c, w, stop), c.FrameBit(byte, stop));
    VotesDecide(c, w, rs);
    VotesOfFrame(c, w, byte, stop);
    FrameWord(c, byte);
  }

  /** Two waveforms with the same votes give the same word and flags. */
  lemma SameVotesSameWord(c: Cfg, w1: seq<bool>, rs1: seq<Rx>, w2: seq<bool>, rs2: seq<Rx>)
    requires Run(c, w1, rs1) && Ready(c, rs1[0], w1)
    requires Run(c, w2, rs2) && Ready(c, rs2[0], w2)
    requires |w1| == |w2| == BitStart(c, c.StopCell()) + SampleD(c)
    requires forall cell :: 0 <= cell <= c.StopCell() ==> Covers(c, w1, cell) && Covers(c, w2, cell)
    requires forall cell :: 0 <= cell <= c.StopCell() ==> SamplesOf(c, w1, cell).Vote() == SamplesOf(c, w2, cell).Vote()
    requires !SamplesOf(c, w1, 0).Vote()
    ensures Out(c, rs1[|w1|]) == Out(c, rs2[|w2|])
  {
    VotesDecide(c, w1, rs1);
    VotesDecide(c, w2, rs2);
    EqualVotes(c, w1, w2, c.StopCell());
  }

  lemma {:induction false} EqualVotes(c: Cfg, w1: seq<bool>, w2: seq<bool>, m: nat)
    requires forall cell :: 0 <= cell < m ==> Covers(c, w1, cell) && Covers(c, w2, cell)
    requires forall cell :: 0 <= cell < m ==> SamplesOf(c, w1, cell).Vote() == SamplesOf(c, w2, cell).Vote()
    ensures m > 0 ==> Covers(c, w1, m - 1) && Covers(c, w2, m - 1)
    ensures Votes(c, w1, m) == Votes(c, w2, m)
  {
    if m > 0 {
      EqualVotes(c, w1, w2, m - 1);
    }
  }
}
