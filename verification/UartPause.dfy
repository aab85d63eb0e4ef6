/** The pause that the receiver does not survive (UART/uart_rx.sv:74-81, 169-170): one idle tick behind
    a stop bit leaves its counter at 0, and from there it counts through a whole bit before it looks
    for a start bit. */
module UartPause {
  import opened Bits
  import opened UartLine
  import opened UartRx
  import opened UartNoise
  import opened UartStream

  // ----- a frame without noise

  /** The first m bits of the frame, T ticks each. */
  function Square(c: Cfg, byte: Reg8, m: nat): (w: seq<bool>)
    ensures |w| == BitStart(c, m) - 1
  {
    if m == 0 then [] else Square(c, byte, m - 1) + Rep(c.T(), c.FrameBit(byte, m - 1))
  }

  /** The frame to the end of the first stop bit, as UartTx sends it. */
  function CleanFrame(c: Cfg, byte: Reg8): seq<bool> { Square(c, byte, c.StopCell() + 1) }

  lemma {:induction false} SquareAt(c: Cfg, byte: Reg8, m: nat, cell: nat, k: nat)
    requires cell < m && k < c.T() && BitStart(c, cell) - 1 + k < |Square(c, byte, m)|
    ensures Square(c, byte, m)[BitStart(c, cell) - 1 + k] == c.FrameBit(byte, cell)
  {
    if cell < m - 1 {
      StartsApart(c, cell, m - 1);
      SquareAt(c, byte, m - 1, cell, k);
    }
  }

  lemma CellReached(c: Cfg, cell: nat, m: nat)
    requires cell < m
    ensures BitStart(c, cell) - 1 + c.T() <= BitStart(c, m) - 1
  {
    StartsApart(c, cell, m);
  }

  /** Every sample of a clean frame is the bit that was sent. */
  lemma CleanSamples(c: Cfg, byte: Reg8, cell: nat)
    requires cell <= c.StopCell()
    ensures Covers(c, CleanFrame(c, byte), cell)
    ensures NearlyAll(SamplesOf(c, CleanFrame(c, byte), cell), c.FrameBit(byte, cell))
  {
    CellReached(c, cell, c.StopCell() + 1);
    SquareAt(c, byte, c.StopCell() + 1, cell, SampleA(c) + 1);
    SquareAt(c, byte, c.StopCell() + 1, cell, SampleB(c) + 1);
    SquareAt(c, byte, c.StopCell() + 1, cell, SampleC(c) + 1);
  }

  lemma CleanStart(c: Cfg, byte: Reg8, n: nat)
    requires n <= c.T()
    ensures n <= |CleanFrame(c, byte)| && CleanFrame(c, byte)[..n] == Rep(n, false)
  {
    CellReached(c, 0, c.StopCell() + 1);
    forall k | 0 <= k < n ensures CleanFrame(c, byte)[k] == false {
      SquareAt(c, byte, c.StopCell() + 1, 0, k);
    }
  }

  lemma CleanIsNoisy(c: Cfg, byte: Reg8)
    ensures |CleanFrame(c, byte)| > 0 && Noisy(c, CleanFrame(c, byte), byte)
  {
    CleanStart(c, byte, 1);
    forall cell | 0 <= cell <= c.StopCell()
      ensures Covers(c, CleanFrame(c, byte), cell)
      ensures NearlyAll(SamplesOf(c, CleanFrame(c, byte), cell), c.FrameBit(byte, cell))
    {
      CleanSamples(c, byte, cell);
    }
  }

  // ----- no word can come sooner than a frame

  /** How many ticks ago the current frame must have started, at least. */
  function Age(c: Cfg, r: Rx): nat {
    match r.fsm
    case IDLE => 0
    case START => 1 + r.ticks
    case DATA => BitStart(c, r.bits + 1) + r.ticks
    case PARITY => BitStart(c, c.N() + 1) + r.ticks
    case STOP => BitStart(c, c.StopCell()) + r.ticks
  }

  ghost predicate Counting(c: Cfg, r: Rx) { Valid(c, r) && (r.fsm == DATA ==> r.bits < c.N()) }

  lemma AgeIdle(c: Cfg, r: Rx, din: bool)
    requires Counting(c, r) && r.fsm == IDLE
    ensures Counting(c, Tick(c, r, din)) && Age(c, Tick(c, r, din)) <= 1
  {
  }

  lemma AgeInside(c: Cfg, r: Rx, din: bool)
    requires Counting(c, r) && r.fsm != IDLE && r.ticks < c.T() - 1
    ensures Counting(c, Tick(c, r, din)) && Age(c, Tick(c, r, din)) == Age(c, r) + 1
  {
    TickInside(c, r, din);
  }

  lemma AgeStartEnd(c: Cfg, r: Rx, din: bool)
    requires Counting(c, r) && r.fsm == START && r.ticks == c.T() - 1
    ensures Counting(c, Tick(c, r, din)) && Age(c, Tick(c, r, din)) <= Age(c, r) + 1
  {
    TickEnd(c, r, din);
    assert BitStart(c, 1) == BitStart(c, 0) + c.T();
  }

  lemma LastIs(c: Cfg, bits: nat)
    requires bits < c.N()
    ensures LastBit(c, bits) <==> bits + 1 == c.N()
  {
  }

  lemma AgeDataEnd(c: Cfg, r: Rx, din: bool)
    requires Counting(c, r) && r.fsm == DATA && r.ticks == c.T() - 1
    ensures Counting(c, Tick(c, r, din)) && Age(c, Tick(c, r, din)) <= Age(c, r) + 1
  {
    TickEnd(c, r, din);
    LastIs(c, r.bits);
    assert BitStart(c, r.bits + 2) == BitStart(c, r.bits + 1) + c.T();
  }

  lemma AgeTailEnd(c: Cfg, r: Rx, din: bool)
    requires Counting(c, r) && (r.fsm == PARITY || r.fsm == STOP) && r.ticks == c.T() - 1
    ensures Counting(c, Tick(c, r, din)) && Age(c, Tick(c, r, din)) <= Age(c, r) + 1
  {
    TickEnd(c, r, din);
    assert BitStart(c, c.N() + 2) == BitStart(c, c.N() + 1) + c.T();
  }

  lemma AgeStep(c: Cfg, r: Rx, din: bool)
    requires Counting(c, r)
    ensures Counting(c, Tick(c, r, din)) && Age(c, Tick(c, r, din)) <= Age(c, r) + 1
  {
    if r.fsm == IDLE {
      AgeIdle(c, r, din);
    } else if r.ticks < c.T() - 1 {
      AgeInside(c, r, din);
    } else {
      match r.fsm
      case START => AgeStartEnd(c, r, din);
      case DATA => AgeDataEnd(c, r, din);
      case _ => AgeTailEnd(c, r, din);
    }
  }

  /** Whatever the line does, nothing is announced before the age of a whole frame. */
  lemma {:induction false} TooSoon(c: Cfg, r: Rx, w: seq<bool>)
    requires Counting(c, r) && Age(c, r) + |w| < DoneAt(c)
    ensures Heard(c, r, w) == []
    ensures Counting(c, Final(c, r, w)) && Age(c, Final(c, r, w)) <= Age(c, r) + |w|
  {
    if w != [] {
      TooSoon(c, r, w[..|w| - 1]);
      AgeStep(c, Final(c, r, w[..|w| - 1]), w[|w| - 1]);
    }
  }

  // ----- one idle tick

  lemma IdleCounts(c: Cfg, r: Rx)
    requires Valid(c, r) && r.fsm == IDLE && r.ticks < c.T() - 1
    ensures var r' := Tick(c, r, false); r'.fsm == IDLE && r'.ticks == r.ticks + 1 && Valid(c, r')
  {
  }

  /** In IDLE with the counter at 0 a low line is only counted. */
  lemma {:induction false} LowCounts(c: Cfg, r: Rx, n: nat)
    requires Valid(c, r) && r.fsm == IDLE && r.ticks == 0 && n < c.T()
    ensures Heard(c, r, Rep(n, false)) == []
    ensures var r' := Final(c, r, Rep(n, false)); r'.fsm == IDLE && r'.ticks == n && Valid(c, r')
  {
    if n > 0 {
      LowCounts(c, r, n - 1);
      assert Rep(n, false)[..n - 1] == Rep(n - 1, false);
      IdleCounts(c, Final(c, r, Rep(n - 1, false)));
    }
  }

  /** After one idle tick behind a stop bit. */
  lemma OneTick(c: Cfg, r: Rx)
    requires Rests(c, r) && r.fsm == STOP
    ensures Heard(c, r, [true]) == []
    ensures var r' := Final(c, r, [true]); Valid(c, r') && r'.fsm == IDLE && r'.ticks == 0
  {
    FirstPause(c, r);
    assert [true][..0] == [];
    assert Final(c, r, [true]) == Tick(c, r, true);
  }

  lemma Missed(c: Cfg, r: Rx, w: seq<bool>)
    requires Valid(c, r) && r.fsm == IDLE && r.ticks == 0
    requires |w| == BitStart(c, c.StopCell()) + c.T() - 1 && w[..c.T() - 1] == Rep(c.T() - 1, false)
    ensures Heard(c, r, w) == []
  {
    var low, rest := w[..c.T() - 1], w[c.T() - 1..];
    assert w == low + rest;
    LowCounts(c, r, c.T() - 1);
    TooSoon(c, Final(c, r, low), rest);
    HeardAppend(c, r, low, rest);
  }

  /** The exact condition.  After a stop bit and g idle ticks a frame with a clean start bit, noisy or
      not otherwise, is heard within its own time if and only if g is not 1; then nothing is. */
  lemma PauseDecides(c: Cfg, r: Rx, body: seq<bool>, byte: Reg8, g: nat)
    requires Rests(c, r) && r.fsm == STOP && |body| > 0 && Noisy(c, body, byte)
    requires c.T() <= |body| && body[..c.T() - 1] == Rep(c.T() - 1, false)
    ensures Heard(c, r, Rep(g, true) + body) == if g != 1 then [Clean(c, byte)] else []
  {
    var r1 := Final(c, r, Rep(g, true));
    HeardAppend(c, r, Rep(g, true), body);
    PauseRests(c, r, g);
    if g == 1 {
      assert Rep(1, true) == [true];
      OneTick(c, r);
      Missed(c, r1, body);
    } else {
      FrameHeard(c, r1, body, byte);
    }
  }

  /** The same for what UartTx sends. */
  lemma CleanPause(c: Cfg, r: Rx, byte: Reg8, g: nat)
    requires Rests(c, r) && r.fsm == STOP
    ensures Heard(c, r, Rep(g, true) + CleanFrame(c, byte)) == [Clean(c, byte)] <==> g != 1
  {
    CleanIsNoisy(c, byte);
    CleanStart(c, byte, c.T() - 1);
    PauseDecides(c, r, CleanFrame(c, byte), byte, g);
  }

  // ----- a word that is lost

  lemma {:induction false} AllHigh(c: Cfg, byte: Reg8, m: nat, high: nat)
    requires m > 0 && forall cell :: 0 < cell < m ==> c.FrameBit(byte, cell)
    requires BitStart(c, m) == 1 + c.T() + high
    ensures Square(c, byte, m) == Rep(c.T(), false) + Rep(high, true)
  {
    if m > 1 {
      BitStartAtLeast(c, m - 1);
      AllHigh(c, byte, m - 1, high - c.T());
      assert Rep(high, true) == Rep(high - c.T(), true) + Rep(c.T(), true);
    } else {
      assert BitStart(c, 1) == BitStart(c, 0) + c.T();
      assert Square(c, byte, 0) == [];
    }
  }

  /** What the receiver takes for a start bit once it has counted through the real one: the last low
      tick, and samples that are all high. */
  function LateStart(c: Cfg, high: nat): Dip { Dip([false] + Rep(c.T(), true), high) }

  lemma LateStartPasses(c: Cfg, high: nat)
    requires high > 0
    ensures Passing(c, LateStart(c, high))
  {
    assert BitStart(c, 1) == BitStart(c, 0) + c.T();
  }

  /** From IDLE with the counter at 0: one bit low, then high for as long as one likes. */
  lemma StartLost(c: Cfg, r: Rx, n: nat)
    requires Valid(c, r) && r.fsm == IDLE && r.ticks == 0 && n > c.T()
    ensures Heard(c, r, Rep(c.T() - 1, false) + LateStart(c, n - c.T()).Whole()) == []
  {
    LowRests(c, r, c.T() - 1);
    LateStartPasses(c, n - c.T());
    ThenDropped(c, r, Rep(c.T() - 1, false), LateStart(c, n - c.T()));
  }

  lemma LowRests(c: Cfg, r: Rx, n: nat)
    requires Valid(c, r) && r.fsm == IDLE && r.ticks == 0 && n == c.T() - 1
    ensures Heard(c, r, Rep(n, false)) == [] && Rests(c, Final(c, r, Rep(n, false)))
  {
    LowCounts(c, r, n);
  }

  lemma ThenDropped(c: Cfg, r: Rx, low: seq<bool>, d: Dip)
    requires Heard(c, r, low) == [] && Rests(c, Final(c, r, low)) && Passing(c, d)
    ensures Heard(c, r, low + d.Whole()) == []
  {
    DipDropped(c, Final(c, r, low), d);
    HeardAppend(c, r, low, d.Whole());
  }

  lemma SameWave(c: Cfg, n: nat)
    requires n > c.T()
    ensures Rep(c.T() - 1, false) + LateStart(c, n - c.T()).Whole() == Rep(c.T(), false) + Rep(n, true)
  {
  }

  lemma HighFrame(c: Cfg, n: nat) returns (high: nat)
    requires !c.Pen()
    ensures high > c.T() && CleanFrame(c, Rep(8, true)) + Rep(n, true) == Rep(c.T(), false) + Rep(high + n, true)
  {
    var m := c.StopCell() + 1;
    BitStartAtLeast(c, m - 2);
    assert BitStart(c, m) == BitStart(c, m - 1) + c.T() == BitStart(c, m - 2) + c.T() + c.T();
    high := BitStart(c, m) - 1 - c.T();
    AllHigh(c, Rep(8, true), m, high);
    assert Rep(high + n, true) == Rep(high, true) + Rep(n, true);
  }

  /** The departure is real: one idle tick behind a stop bit, 0xFF without parity is never heard, however
      long the line then stays idle. */
  lemma LostExample(c: Cfg, r: Rx, n: nat)
    requires Rests(c, r) && r.fsm == STOP && !c.Pen()
    ensures Heard(c, r, [true] + (CleanFrame(c, Rep(8, true)) + Rep(n, true))) == []
  {
    var high := HighFrame(c, n);
    LostAfter(c, r, CleanFrame(c, Rep(8, true)) + Rep(n, true), high + n);
  }

  lemma LostAfter(c: Cfg, r: Rx, w: seq<bool>, high: nat)
    requires Rests(c, r) && r.fsm == STOP && high > c.T() && w == Rep(c.T(), false) + Rep(high, true)
    ensures Heard(c, r, [true] + w) == []
  {
    OneTick(c, r);
    SameWave(c, high);
    StartLost(c, Final(c, r, [true]), high);
    HeardAppend(c, r, [true], w);
  }
}
