/** The receiver runs one tick behind the transmitter (the remark at UART/uart_rx.sv:67-71):
    the relation between the two state machines that every tick keeps while the receiver
    listens to the transmitter. */
module UartLag {
  import opened UartLine
  import T = UartTx
  import R = UartRx

  /** The transmitter is in a bit of the frame up to and including the first stop bit. */
  predicate InFrame(t: T.Tx) {
    t.fsm in {T.START, T.DATA, T.PARITY} || (t.fsm == T.STOP && t.bits == 0)
  }

  /** All three samples equal. */
  function Steady(b: bool): R.Samples { R.Samples(b, b, b) }

  /** The receiver is in bit number cell of the frame of byte and reads it correctly. */
  ghost predicate Reads(c: Cfg, r: R.Rx, byte: Reg8, cell: nat) {
    R.At(c, r, c.Frame(byte, cell), Steady(c.FrameBit(byte, cell)))
  }

  /** The receiver is between frames: it waits at the last count, or has just gone to IDLE. */
  ghost predicate Rests(c: Cfg, t: T.Tx, r: R.Rx) {
    && R.Valid(c, r)
    && (r.fsm == R.IDLE || (r.fsm == R.STOP && t.ticks == 0))
    && (r.ticks == c.T() - 1
        || (r.fsm == R.IDLE && r.ticks == 0
            && (t.ticks == 1 || (t.fsm == T.STOP_HALF && t.ticks == c.half + 1))))
  }

  ghost predicate Lag(c: Cfg, t: T.Tx, r: R.Rx, byte: Reg8) {
    if InFrame(t) && t.ticks >= 1 then
      Reads(c, r, byte, T.Cell(c, t)) && r.ticks == t.ticks - 1
    else if InFrame(t) && t.fsm != T.START then
      Reads(c, r, byte, T.Cell(c, t) - 1) && r.ticks == c.T() - 1
    else
      Rests(c, t, r)
  }

  /** Sending, or waiting for something to send. */
  ghost predicate Active(c: Cfg, t: T.Tx, byte: Reg8) {
    if t.fsm == T.IDLE then T.Valid(c, t) else T.Sending(c, t, byte)
  }

  lemma FrameGrows(c: Cfg, byte: Reg8, cell: nat)
    ensures c.Frame(byte, cell) + [Steady(c.FrameBit(byte, cell)).Vote()] == c.Frame(byte, cell + 1)
  {
  }

  /** The byte is read by the transmitter only until it is pulled: afterwards any byte will do. */
  lemma AnyByte(c: Cfg, t: T.Tx, byte: Reg8, other: Reg8)
    requires Active(c, t, byte) && t.fsm != T.DATA
    ensures Active(c, t, other)
  {
  }

  /** A tick inside a bit that the receiver is also in. */
  lemma LagInside(c: Cfg, t: T.Tx, r: R.Rx, byte: Reg8, start: bool, din: Reg8, floating: bool)
    requires T.Sending(c, t, byte) && InFrame(t) && t.ticks >= 1 && Lag(c, t, r, byte)
    requires T.NeedsByte(t) ==> din == byte
    ensures Lag(c, T.Tick(c, t, start, din, floating), R.Tick(c, r, T.Dout(c, t, din)), byte)
  {
    T.LineShowsFrame(c, t, byte, din);
    ReadsInside(c, r, byte, T.Cell(c, t));
    if t.ticks == c.T() - 1 {
      T.SendingStep(c, t, byte, start, din, floating);
      LagTurns(c, t, T.Tick(c, t, start, din, floating), R.Tick(c, r, T.Dout(c, t, din)), byte);
    }
  }

  /** The transmitter has just left a bit; the receiver is at its last tick. */
  lemma LagTurns(c: Cfg, t: T.Tx, t': T.Tx, r': R.Rx, byte: Reg8)
    requires T.Sending(c, t, byte) && InFrame(t)
    requires Reads(c, r', byte, T.Cell(c, t)) && r'.ticks == c.T() - 1
    requires t'.ticks == 0 && T.Cell(c, t) <= T.LastCell(c)
    requires if T.Cell(c, t) < T.LastCell(c) then T.Sending(c, t', byte) && T.Cell(c, t') == T.Cell(c, t) + 1
             else t'.fsm in {T.START, T.IDLE}
    ensures Lag(c, t', r', byte)
  {
  }

  lemma ReadsInside(c: Cfg, r: R.Rx, byte: Reg8, cell: nat)
    requires Reads(c, r, byte, cell) && r.ticks < c.T() - 1
    ensures var r' := R.Tick(c, r, c.FrameBit(byte, cell)); Reads(c, r', byte, cell) && r'.ticks == r.ticks + 1
  {
    R.AtInside(c, r, c.Frame(byte, cell), Steady(c.FrameBit(byte, cell)), c.FrameBit(byte, cell));
  }

  /** The tick after the transmitter entered a new bit: the receiver finishes the last one. */
  lemma LagNext(c: Cfg, t: T.Tx, r: R.Rx, byte: Reg8, start: bool, din: Reg8, floating: bool)
    requires T.Sending(c, t, byte) && InFrame(t) && t.ticks == 0 && t.fsm != T.START && Lag(c, t, r, byte)
    requires T.NeedsByte(t) ==> din == byte
    ensures Lag(c, T.Tick(c, t, start, din, floating), R.Tick(c, r, T.Dout(c, t, din)), byte)
  {
    ReadsNext(c, r, byte, T.Cell(c, t) - 1, T.Dout(c, t, din));
    LeavesZero(c, t, start, din, floating);
  }

  lemma LeavesZero(c: Cfg, t: T.Tx, start: bool, din: Reg8, floating: bool)
    requires t.ticks == 0 && t.fsm != T.STOP_HALF
    ensures T.Tick(c, t, start, din, floating) == t.(ticks := 1)
  {
  }

  lemma ReadsNext(c: Cfg, r: R.Rx, byte: Reg8, cell: nat, din: bool)
    requires Reads(c, r, byte, cell) && r.ticks == c.T() - 1 && cell < c.StopCell()
    ensures Reads(c, R.Tick(c, r, din), byte, cell + 1) && R.Tick(c, r, din).ticks == 0
  {
    R.AtEnd(c, r, c.Frame(byte, cell), Steady(c.FrameBit(byte, cell)), din, Steady(c.FrameBit(byte, cell + 1)));
    FrameGrows(c, byte, cell);
  }

  /** A start bit seen, or the line idle. */
  lemma LagRest(c: Cfg, t: T.Tx, r: R.Rx, byte: Reg8, start: bool, din: Reg8, floating: bool)
    requires Active(c, t, byte) && (!InFrame(t) || (t.fsm == T.START && t.ticks == 0)) && Rests(c, t, r)
    requires T.NeedsByte(t) ==> din == byte
    ensures Lag(c, T.Tick(c, t, start, din, floating), R.Tick(c, r, T.Dout(c, t, din)), byte)
  {
    if r.ticks == c.T() - 1 {
      R.AtRest(c, r, T.Dout(c, t, din), Steady(false));
    }
    if t.fsm == T.START {
      assert c.Frame(byte, 0) == [];
    } else if t.fsm != T.IDLE {
      T.SendingStep(c, t, byte, start, din, floating);
    }
  }

  /** Every tick keeps the lag, whatever the transmitter does next. */
  lemma LagStep(c: Cfg, t: T.Tx, r: R.Rx, byte: Reg8, start: bool, din: Reg8, floating: bool)
    requires Active(c, t, byte) && Lag(c, t, r, byte)
    requires T.NeedsByte(t) ==> din == byte
    ensures Lag(c, T.Tick(c, t, start, din, floating), R.Tick(c, r, T.Dout(c, t, din)), byte)
  {
    if InFrame(t) && t.ticks >= 1 {
      LagInside(c, t, r, byte, start, din, floating);
    } else if InFrame(t) && t.fsm != T.START {
      LagNext(c, t, r, byte, start, din, floating);
    } else {
      LagRest(c, t, r, byte, start, din, floating);
    }
  }

  lemma ActiveStep(c: Cfg, t: T.Tx, byte: Reg8, start: bool, din: Reg8, floating: bool)
    requires Active(c, t, byte)
    requires T.NeedsByte(t) ==> din == byte
    ensures Active(c, T.Tick(c, t, start, din, floating), byte)
  {
    if t.fsm != T.IDLE {
      T.SendingStep(c, t, byte, start, din, floating);
    }
  }

  /** When the state of the receiver is clocked, the line is steady: the transmitter does not
      change state at the same tick. */
  lemma StateClocksNeverMeet(c: Cfg, t: T.Tx, r: R.Rx, byte: Reg8, start: bool, din: Reg8, floating: bool)
    requires Active(c, t, byte) && Lag(c, t, r, byte)
    requires T.NeedsByte(t) ==> din == byte
    requires R.Tick(c, r, T.Dout(c, t, din)).ticks == 0
    ensures T.Tick(c, t, start, din, floating).ticks != 0
    ensures T.Tick(c, t, start, din, floating).fsm == t.fsm
  {
  }

  /** The tick count of the transmitter at which the receiver announces the word. */
  function DoneTicks(c: Cfg): int { R.SampleD(c) + 1 }

  /** Within a frame the receiver is in the stop bit exactly when the transmitter is. */
  lemma StopTogether(c: Cfg, t: T.Tx, byte: Reg8)
    requires T.Sending(c, t, byte) && InFrame(t)
    ensures T.Cell(c, t) <= c.StopCell()
    ensures R.FsmAt(c, T.Cell(c, t)) == R.STOP <==> t.fsm == T.STOP
  {
  }

  lemma ReadsFsm(c: Cfg, r: R.Rx, byte: Reg8, cell: nat)
    requires Reads(c, r, byte, cell)
    ensures r.fsm == R.FsmAt(c, cell)
  {
  }

  lemma DoneTicksInside(c: Cfg)
    ensures 1 < DoneTicks(c) < c.T() && R.SampleD(c) < c.T() - 1
  {
  }

  /** When the receiver announces. */
  lemma DoneWhen(c: Cfg, t: T.Tx, r: R.Rx, byte: Reg8)
    requires Active(c, t, byte) && Lag(c, t, r, byte)
    ensures R.Done(c, r) <==> InFrame(t) && t.fsm == T.STOP && t.ticks == DoneTicks(c)
  {
    DoneTicksInside(c);
    if InFrame(t) && t.ticks >= 1 {
      StopTogether(c, t, byte);
      ReadsFsm(c, r, byte, T.Cell(c, t));
    }
  }

  /** What it announces. */
  lemma DoneWord(c: Cfg, r: R.Rx, byte: Reg8)
    requires Reads(c, r, byte, c.StopCell()) && r.ticks == R.SampleD(c)
    ensures R.Out(c, r) == Clean(c, byte)
  {
    R.OutIsWordOf(c, r, c.Frame(byte, c.StopCell()), Steady(true));
    R.FrameWord(c, byte);
  }

  /** The word is announced once per frame, in the first stop bit, and is the byte sent. */
  lemma LagDone(c: Cfg, t: T.Tx, r: R.Rx, byte: Reg8)
    requires Active(c, t, byte) && Lag(c, t, r, byte)
    ensures R.Done(c, r) <==> InFrame(t) && t.fsm == T.STOP && t.ticks == DoneTicks(c)
    ensures R.Done(c, r) ==> R.Out(c, r) == Clean(c, byte)
  {
    DoneWhen(c, t, r, byte);
    if R.Done(c, r) {
      DoneWord(c, r, byte);
    }
  }
}
