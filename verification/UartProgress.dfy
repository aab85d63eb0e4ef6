/** Progress of the loopback: every accepted byte is announced, and within how many ticks. */
module UartProgress {
  import opened Bits
  import opened UartLine
  import opened UartLoopback
  import opened UartLag
  import opened UartRoundTrip
  import UartTx
  import UartRx

  /** The length of n frames. */
  function Frames(c: Cfg, n: nat): nat {
    if n == 0 then 0 else c.FrameTicks() + Frames(c, n - 1)
  }

  /** Ticks until the transmitter is idle with nothing queued, if nothing more is written: what
      is left of the current frame and the frames of the bytes after it. */
  function TicksLeft(k: Conf, s: Uart): int {
    if s.tx.fsm == UartTx.IDLE then
      if s.txq == [] then 0 else k.c.T() - s.tx.ticks + Frames(k.c, |s.txq|)
    else
      k.c.FrameTicks() - UartTx.Pos(k.c, s.tx)
      + Frames(k.c, if Before(s) && s.txq != [] then |s.txq| - 1 else |s.txq|)
  }

  lemma StartPos(c: Cfg, t: UartTx.Tx)
    requires t.fsm == UartTx.START && t.ticks == 0
    ensures UartTx.Pos(c, t) == 0
  {
    assert UartTx.CellStart(c, 0) == 0;
  }

  /** A frame's last tick starts the next frame or ends in IDLE, and so does the wait before one. */
  ghost predicate Turns(k: Conf, s: Uart, s': Uart) {
    s'.txq == s.txq && s'.tx.ticks == 0 && s'.tx.fsm == if s.txq != [] then UartTx.START else UartTx.IDLE
  }

  lemma TurnCount(k: Conf, s: Uart, s': Uart)
    requires Turns(k, s, s')
    ensures TicksLeft(k, s') == Frames(k.c, |s.txq|)
  {
    if s'.tx.fsm == UartTx.START {
      StartPos(k.c, s'.tx);
    }
  }

  lemma SendingCounts(k: Conf, s: Uart, i: TickIn)
    requires Machines(k, s) && Accounts(k, s) && s.tx.fsm != UartTx.IDLE
    requires PhasesTurn(k, s, Tick(k, s, i))
    ensures TicksLeft(k, s) >= 1
    ensures TicksLeft(k, Tick(k, s, i)) == TicksLeft(k, s) - 1
  {
    FrameAdvances(k, s, i);
    AdvanceCounts(k, s, Tick(k, s, i), FrameByte(k, s));
  }

  /** One tick further into the frame of byte, or at its end. */
  ghost predicate Advances(k: Conf, s: Uart, s': Uart, byte: Reg8) {
    && 0 <= UartTx.Pos(k.c, s.tx) < k.c.FrameTicks() && s'.txq == s.txq
    && if UartTx.Pos(k.c, s.tx) + 1 < k.c.FrameTicks() then
         UartTx.Sending(k.c, s'.tx, byte) && UartTx.Pos(k.c, s'.tx) == UartTx.Pos(k.c, s.tx) + 1
       else
         Turns(k, s, s')
  }

  lemma FrameAdvances(k: Conf, s: Uart, i: TickIn)
    requires Machines(k, s) && Accounts(k, s) && s.tx.fsm != UartTx.IDLE
    ensures Advances(k, s, Tick(k, s, i), FrameByte(k, s)) && UartTx.Sending(k.c, s.tx, FrameByte(k, s))
  {
    if UartTx.NeedsByte(s.tx) {
      HeadIsFrameByte(k, s, i.stale);
    }
    UartTx.PosStep(k.c, s.tx, FrameByte(k, s), s.txq != [], Head(s.txq, i.stale), i.floating);
  }

  lemma AdvanceCounts(k: Conf, s: Uart, s': Uart, byte: Reg8)
    requires Advances(k, s, s', byte) && UartTx.Sending(k.c, s.tx, byte)
    requires (Before(s) ==> s.txq != []) && PhasesTurn(k, s, s')
    ensures TicksLeft(k, s) >= 1 && TicksLeft(k, s') == TicksLeft(k, s) - 1
  {
    if UartTx.Pos(k.c, s.tx) + 1 < k.c.FrameTicks() {
      SamePhase(k, s, s', byte);
    } else {
      LastTickIsAfter(k, s, byte);
      TurnCount(k, s, s');
    }
  }

  /** Inside a frame a tick does not change whether the byte is still to be pulled. */
  lemma SamePhase(k: Conf, s: Uart, s': Uart, byte: Reg8)
    requires UartTx.Sending(k.c, s.tx, byte) && UartTx.Sending(k.c, s'.tx, byte)
    requires PhasesTurn(k, s, s')
    requires UartTx.Pos(k.c, s'.tx) == UartTx.Pos(k.c, s.tx) + 1
    ensures Before(s') == Before(s)
  {
    UartTx.CellOfPos(k.c, s.tx, byte);
    UartTx.CellOfPos(k.c, s'.tx, byte);
  }

  lemma LastTickIsAfter(k: Conf, s: Uart, byte: Reg8)
    requires UartTx.Sending(k.c, s.tx, byte) && UartTx.Pos(k.c, s.tx) + 1 == k.c.FrameTicks()
    ensures !Before(s)
  {
    UartTx.CellOfPos(k.c, s.tx, byte);
    UartTx.FrameLength(k.c);
    UartTx.CellStartMono(k.c, k.c.StopCell() + 1, UartTx.LastCell(k.c) + 1);
  }

  /** Every tick counts: with anything left to send, the number of ticks left drops by exactly
      one. */
  lemma TickCounts(k: Conf, s: Uart, i: TickIn)
    requires Boundary(k, s)
    ensures TicksLeft(k, s) >= 0
    ensures TicksLeft(k, Tick(k, s, i)) == if TicksLeft(k, s) > 0 then TicksLeft(k, s) - 1 else 0
  {
    LineIsLineNow(k, s, i.stale);
    TickPhases(k, s, i);
    if s.tx.fsm != UartTx.IDLE {
      SendingCounts(k, s, i);
    } else if s.tx.ticks == k.c.T() - 1 {
      TurnCount(k, s, Tick(k, s, i));
    }
  }

  /** A clock without a write leaves the count alone. */
  lemma ClkWaits(k: Conf, s: Uart, i: ClkIn)
    requires Inv(k, s) && !i.wr
    ensures TicksLeft(k, Clk(k, s, i)) == TicksLeft(k, s)
    ensures Clk(k, s, i).log.accepted == s.log.accepted
  {
    ClkPhases(k, s, i);
    WaitQueue(k, s, i);
    SameTicksLeft(k, s, Clk(k, s, i));
  }

  /** The queue shrinks exactly when the byte of the frame is taken out. */
  ghost predicate QueueWaits(s: Uart, s': Uart) {
    && s'.tx == s.tx && s'.log.accepted == s.log.accepted
    && |s'.txq| == |s.txq| - B2N(TxReady(s) && s.txq != [])
  }

  lemma WaitQueue(k: Conf, s: Uart, i: ClkIn)
    requires !i.wr
    ensures QueueWaits(s, Clk(k, s, i))
  {
  }

  lemma SameTicksLeft(k: Conf, s: Uart, s': Uart)
    requires QueueWaits(s, s') && PhasesMove(k, s, s') && (Before(s) ==> s.txq != [])
    ensures TicksLeft(k, s') == TicksLeft(k, s)
  {
  }

  lemma {:induction false} ClksWait(k: Conf, s: Uart, ins: seq<ClkIn>)
    requires Inv(k, s) && forall i :: i in ins ==> !i.wr
    ensures TicksLeft(k, Clks(k, s, ins)) == TicksLeft(k, s)
    ensures Clks(k, s, ins).log.accepted == s.log.accepted
  {
    if ins != [] {
      ClksWait(k, s, ins[..|ins| - 1]);
      ClksKeep(k, s, ins[..|ins| - 1]);
      ClkWaits(k, Clks(k, s, ins[..|ins| - 1]), ins[|ins| - 1]);
    }
  }

  /** Baud periods in which the CPU writes nothing. */
  ghost predicate Quiet(k: Conf, ps: seq<Period>) {
    forall p :: p in ps ==> Timely(k, p) && forall i :: i in p.clks ==> !i.wr
  }

  lemma {:induction false} Countdown(k: Conf, s: Uart, ps: seq<Period>)
    requires Boundary(k, s) && Quiet(k, ps)
    ensures var s' := Run(k, s, ps);
      && Boundary(k, s') && s'.log.accepted == s.log.accepted
      && TicksLeft(k, s) >= 0
      && TicksLeft(k, s') == if TicksLeft(k, s) > |ps| then TicksLeft(k, s) - |ps| else 0
  {
    if ps == [] {
      TickCounts(k, s, TickIn(Rep(8, false), false));
    } else {
      var before, p := ps[..|ps| - 1], ps[|ps| - 1];
      Countdown(k, s, before);
      var s1 := Run(k, s, before);
      TickCounts(k, s1, p.tick);
      PeriodKeeps(k, s1, p);
      ClksWait(k, Tick(k, s1, p.tick), p.clks);
    }
  }

  /** Nothing left to send means everything accepted has been announced. */
  lemma DoneMeansAll(k: Conf, s: Uart)
    requires Boundary(k, s) && TicksLeft(k, s) == 0
    ensures s.tx.fsm == UartTx.IDLE && s.log.completed == CleanAll(k.c, s.log.accepted)
  {
    if s.tx.fsm != UartTx.IDLE {
      UartTx.PosStep(k.c, s.tx, FrameByte(k, s), false, FrameByte(k, s), false);
    }
    assert s.log.accepted[..|s.log.accepted|] == s.log.accepted;
  }

  /** The bound: a wait of at most one bit, the current frame and the queued ones. */
  lemma LeftBound(k: Conf, s: Uart)
    requires Boundary(k, s)
    ensures 0 <= TicksLeft(k, s) <= k.c.T() + Frames(k.c, |s.txq| + 1)
  {
    if s.tx.fsm != UartTx.IDLE {
      UartTx.PosStep(k.c, s.tx, FrameByte(k, s), false, FrameByte(k, s), false);
    }
  }

  /** Every byte arrives.  From any reachable state, once the CPU stops writing, after at most
      one bit time, the current frame and one frame per queued byte every accepted byte has been
      announced, masked and error free. */
  lemma EverythingArrives(k: Conf, s0: Uart, ps: seq<Period>, quiet: seq<Period>)
    requires Init(k, s0) && forall p :: p in ps ==> Timely(k, p)
    requires Quiet(k, quiet) && |quiet| >= k.c.T() + Frames(k.c, |Run(k, s0, ps).txq| + 1)
    ensures var s, s' := Run(k, s0, ps), Run(k, Run(k, s0, ps), quiet);
      s'.log.accepted == s.log.accepted && s'.log.completed == CleanAll(k.c, s.log.accepted)
  {
    Reachable(k, s0, ps);
    LeftBound(k, Run(k, s0, ps));
    Countdown(k, Run(k, s0, ps), quiet);
    DoneMeansAll(k, Run(k, Run(k, s0, ps), quiet));
  }

  /** While a frame is on the line the receiver is in the same bit, exactly one tick behind. */
  lemma OneTickBehind(k: Conf, s0: Uart, ps: seq<Period>)
    requires Init(k, s0) && forall p :: p in ps ==> Timely(k, p)
    ensures var s := Run(k, s0, ps);
      InFrame(s.tx) && s.tx.ticks >= 1 ==>
        s.rx.ticks == s.tx.ticks - 1 && s.rx.fsm == UartRx.FsmAt(k.c, UartTx.Cell(k.c, s.tx))
  {
    Reachable(k, s0, ps);
  }
}
