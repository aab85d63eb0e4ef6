/** The loopback round trip: whatever the CPU writes and whenever it writes and reads, the
    receiver announces exactly the accepted bytes, masked, in order and free of errors
    (UART/uart.sv:120-140, UART/uart_top.sv:158-164). */
module UartRoundTrip {
  import opened Bits
  import opened UartLine
  import opened UartLoopback
  import opened UartLag
  import Queue
  import UartTx
  import UartRx

  /** The error-free words for a list of bytes. */
  function CleanAll(c: Cfg, bytes: seq<Reg8>): (words: seq<RxWord>)
    ensures |words| == |bytes|
  {
    seq(|bytes|, i requires 0 <= i < |bytes| => Clean(c, bytes[i]))
  }

  predicate FirstStop(t: UartTx.Tx) { t.fsm == UartTx.STOP && t.bits == 0 }

  /** The frame is still to be pulled from the FIFO. */
  predicate Before(s: Uart) {
    UartTx.NeedsByte(s.tx) || (FirstStop(s.tx) && (s.tx.ticks == 0 || TxReady(s)))
  }

  /** Pulled from the FIFO but not yet announced by the receiver. */
  predicate Between(k: Conf, s: Uart) {
    FirstStop(s.tx) && !Before(s) && (s.tx.ticks < DoneTicks(k.c) || RxReady(k, s))
  }

  /** The first stop bit of a frame already announced. */
  predicate Announced(k: Conf, s: Uart) { FirstStop(s.tx) && !Before(s) && !Between(k, s) }

  /** The byte whose frame is on the line. */
  function FrameByte(k: Conf, s: Uart): Reg8 {
    ByteAt(s.log.accepted, |s.log.completed| - B2N(Announced(k, s)))
  }

  function ByteAt(a: seq<Reg8>, d: int): Reg8 {
    if 0 <= d < |a| then a[d] else Rep(8, false)
  }

  /** Bytes accepted, bytes queued, words announced. */
  ghost predicate Accounts(k: Conf, s: Uart) {
    var a, d := s.log.accepted, |s.log.completed|;
    var p := |a| - |s.txq|;
    && Queue.IsTail(s.txq, a)
    && (if Between(k, s) then d + 1 == p else d == p)
    && (Before(s) ==> s.txq != [])
    && (Announced(k, s) ==> d >= 1)
    && s.log.completed == CleanAll(k.c, a[..d])
  }

  /** The elements that are kept, in order. */
  function Select<T>(all: seq<T>, kept: seq<bool>): seq<T>
    requires |all| == |kept|
  {
    if all == [] then []
    else
      var n := |all| - 1;
      Select(all[..n], kept[..n]) + if kept[n] then [all[n]] else []
  }

  /** How many are left out. */
  function LeftOut(kept: seq<bool>): nat {
    if kept == [] then 0 else LeftOut(kept[..|kept| - 1]) + B2N(!kept[|kept| - 1])
  }

  lemma SelectOne<T>(all: seq<T>, kept: seq<bool>, x: T, b: bool)
    requires |all| == |kept|
    ensures Select(all + [x], kept + [b]) == Select(all, kept) + if b then [x] else []
    ensures LeftOut(kept + [b]) == LeftOut(kept) + B2N(!b)
  {
    assert (all + [x])[..|all|] == all && (kept + [b])[..|kept|] == kept;
  }

  lemma {:induction false} SelectLength<T>(all: seq<T>, kept: seq<bool>)
    requires |all| == |kept|
    ensures |all| == |Select(all, kept)| + LeftOut(kept)
  {
    if all != [] {
      SelectLength(all[..|all| - 1], kept[..|all| - 1]);
    }
  }

  /** Words announced, pushed, dropped, read; the overrun flag covers every unseen overrun. */
  ghost predicate Conserved(s: Uart) {
    && |s.log.kept| == |s.log.completed|
    && s.log.pushed == Select(s.log.completed, s.log.kept) && s.log.overruns == LeftOut(s.log.kept)
    && s.log.pushed == s.log.read + s.rxq
    && (s.log.owed <==> s.oe && !s.postRd)
  }

  ghost predicate Machines(k: Conf, s: Uart) {
    Active(k.c, s.tx, FrameByte(k, s)) && Lag(k.c, s.tx, s.rx, FrameByte(k, s))
  }

  ghost predicate Inv(k: Conf, s: Uart) {
    && k.depth >= 2 && |s.txq| <= k.depth && |s.rxq| <= k.depth
    && Accounts(k, s) && Conserved(s) && Machines(k, s)
  }

  /** The edge detectors have seen both levels. */
  predicate Seen(k: Conf, s: Uart) {
    s.pulled == UartTx.Pull(s.tx) && s.doneSet == UartRx.Done(k.c, s.rx)
  }

  /** While the byte is needed it is the head of the FIFO. */
  lemma HeadIsFrameByte(k: Conf, s: Uart, stale: Reg8)
    requires Accounts(k, s) && Before(s)
    ensures Head(s.txq, stale) == FrameByte(k, s) == s.txq[0]
  {
    var a := s.log.accepted;
    assert a[|a| - |s.txq|..][0] == s.txq[0];
  }

  // ----- one baud tick

  lemma TickMachines(k: Conf, s: Uart, i: TickIn)
    requires Machines(k, s) && Accounts(k, s) && RxDin(k, s, i.stale) == Line(k, s, i.stale)
    ensures var s' := Tick(k, s, i);
      && Active(k.c, s'.tx, FrameByte(k, s))
      && Lag(k.c, s'.tx, s'.rx, FrameByte(k, s))
  {
    var byte, din := FrameByte(k, s), Head(s.txq, i.stale);
    if UartTx.NeedsByte(s.tx) {
      HeadIsFrameByte(k, s, i.stale);
    }
    LagStep(k.c, s.tx, s.rx, byte, s.txq != [], din, i.floating);
    ActiveStep(k.c, s.tx, byte, s.txq != [], din, i.floating);
  }

  /** How the phases follow each other at a tick. */
  ghost predicate PhasesTurn(k: Conf, s: Uart, s': Uart) {
    && (Between(k, s') <==> Between(k, s))
    && (Announced(k, s') ==> Announced(k, s))
    && (Before(s') ==> Before(s) || s.txq != [])
    && (Announced(k, s) && !Announced(k, s') ==> !InFrame(s'.tx) || s'.tx.fsm == UartTx.START)
    && (s'.tx.fsm == UartTx.START && s.tx.fsm != UartTx.START ==> s'.tx.ticks == 0)
  }

  /** How the transmitter comes to its first stop bit and leaves it. */
  ghost predicate StopMoves(t: UartTx.Tx, t': UartTx.Tx, start: bool) {
    && (FirstStop(t) && FirstStop(t') ==> t'.ticks == t.ticks + 1)
    && (!FirstStop(t) && FirstStop(t') ==> t'.ticks == 0 && UartTx.NeedsByte(t))
    && (FirstStop(t) && !FirstStop(t') ==> !InFrame(t') || t'.fsm == UartTx.START)
    && (UartTx.NeedsByte(t') ==> UartTx.NeedsByte(t) || start)
    && (UartTx.NeedsByte(t) && !UartTx.NeedsByte(t') ==> FirstStop(t'))
    && (t'.fsm == UartTx.START && t.fsm != UartTx.START ==> t'.ticks == 0)
  }

  lemma TxMoves(c: Cfg, t: UartTx.Tx, byte: Reg8, start: bool, din: Reg8, floating: bool)
    requires Active(c, t, byte)
    ensures StopMoves(t, UartTx.Tick(c, t, start, din, floating), start)
  {
  }

  /** When the receiver announces, in terms of the transmitter. */
  ghost predicate DoneInStop(k: Conf, s: Uart) {
    UartRx.Done(k.c, s.rx) <==> FirstStop(s.tx) && s.tx.ticks == DoneTicks(k.c)
  }

  lemma PhasesFrom(k: Conf, s: Uart, s': Uart)
    requires Seen(k, s) && DoneInStop(k, s) && DoneInStop(k, s') && StopMoves(s.tx, s'.tx, s.txq != [])
    requires s'.pulled == s.pulled && s'.doneSet == s.doneSet && DoneTicks(k.c) > 1
    requires FirstStop(s.tx) && !FirstStop(s'.tx) ==> s.tx.ticks >= DoneTicks(k.c)
    ensures PhasesTurn(k, s, s')
  {
  }

  lemma LeavesLate(c: Cfg, t: UartTx.Tx, byte: Reg8, start: bool, din: Reg8, floating: bool)
    requires Active(c, t, byte) && FirstStop(t) && !FirstStop(UartTx.Tick(c, t, start, din, floating))
    ensures t.ticks >= DoneTicks(c) > 1
  {
  }

  lemma TickDone(k: Conf, s: Uart, i: TickIn)
    requires Machines(k, s) && Accounts(k, s) && RxDin(k, s, i.stale) == Line(k, s, i.stale)
    ensures DoneInStop(k, s) && DoneInStop(k, Tick(k, s, i))
  {
    TickMachines(k, s, i);
    LagDone(k.c, s.tx, s.rx, FrameByte(k, s));
    LagDone(k.c, Tick(k, s, i).tx, Tick(k, s, i).rx, FrameByte(k, s));
  }

  lemma TickMoves(k: Conf, s: Uart, i: TickIn)
    requires Machines(k, s)
    ensures StopMoves(s.tx, Tick(k, s, i).tx, s.txq != [])
    ensures FirstStop(s.tx) && !FirstStop(Tick(k, s, i).tx) ==> s.tx.ticks >= DoneTicks(k.c)
  {
    var byte, start, din := FrameByte(k, s), s.txq != [], Head(s.txq, i.stale);
    TxMoves(k.c, s.tx, byte, start, din, i.floating);
    if FirstStop(s.tx) && !FirstStop(Tick(k, s, i).tx) {
      LeavesLate(k.c, s.tx, byte, start, din, i.floating);
    }
  }

  lemma TickPhases(k: Conf, s: Uart, i: TickIn)
    requires Machines(k, s) && Accounts(k, s)
    requires Seen(k, s) && RxDin(k, s, i.stale) == Line(k, s, i.stale)
    ensures PhasesTurn(k, s, Tick(k, s, i))
  {
    TickDone(k, s, i);
    TickMoves(k, s, i);
    DoneTicksInside(k.c);
    PhasesFrom(k, s, Tick(k, s, i));
  }

  lemma TickAccounts(k: Conf, s: Uart, i: TickIn)
    requires Accounts(k, s) && PhasesTurn(k, s, Tick(k, s, i))
    ensures Accounts(k, Tick(k, s, i))
  {
  }

  /** The frame changes only when the transmitter leaves it. */
  lemma SameFrame(k: Conf, s: Uart, s': Uart)
    requires PhasesTurn(k, s, s') && s'.log == s.log
    ensures FrameByte(k, s') == FrameByte(k, s) || !InFrame(s'.tx) || s'.tx.fsm == UartTx.START
  {
  }

  lemma TickFrame(k: Conf, s: Uart, i: TickIn)
    requires PhasesTurn(k, s, Tick(k, s, i))
    requires var s' := Tick(k, s, i);
      Active(k.c, s'.tx, FrameByte(k, s)) && Lag(k.c, s'.tx, s'.rx, FrameByte(k, s))
    ensures Machines(k, Tick(k, s, i))
  {
    var s' := Tick(k, s, i);
    SameFrame(k, s, s');
    if FrameByte(k, s) != FrameByte(k, s') {
      AnyByte(k.c, s'.tx, FrameByte(k, s), FrameByte(k, s'));
    }
  }

  lemma TickKeeps(k: Conf, s: Uart, i: TickIn)
    requires Inv(k, s) && Seen(k, s) && RxDin(k, s, i.stale) == Line(k, s, i.stale)
    ensures Inv(k, Tick(k, s, i))
  {
    TickMachines(k, s, i);
    TickPhases(k, s, i);
    TickAccounts(k, s, i);
    TickFrame(k, s, i);
  }

  // ----- one system clock

  /** The transmit side: what the CPU writes is queued, what the transmitter pulls leaves. */
  lemma ClkQueue(k: Conf, s: Uart, i: ClkIn)
    requires |s.txq| <= k.depth && k.depth >= 2 && (TxReady(s) ==> s.txq != [])
    requires Queue.IsTail(s.txq, s.log.accepted)
    ensures var q', a' := Clk(k, s, i).txq, Clk(k, s, i).log.accepted;
      && s.log.accepted <= a'
      && |q'| <= k.depth && Queue.IsTail(q', a')
      && |a'| - |q'| == |s.log.accepted| - |s.txq| + B2N(TxReady(s))
      && (!TxReady(s) ==> |q'| >= |s.txq|)
  {
    Queue.TailOfLog(s.log.accepted, s.txq, k.depth, i.wr && !TxFull(k, s), TxReady(s), i.data);
  }

  lemma CleanGrows(c: Cfg, a: seq<Reg8>, d: nat)
    requires d < |a|
    ensures CleanAll(c, a[..d]) + [Clean(c, a[d])] == CleanAll(c, a[..d + 1])
  {
  }

  /** After a clock both levels have been seen; a pull and an announcement move the frame from
      one phase to the next. */
  ghost predicate PhasesMove(k: Conf, s: Uart, s': Uart) {
    && Seen(k, s')
    && (Before(s') <==> Before(s) && !TxReady(s))
    && (Between(k, s') <==> TxReady(s) || (Between(k, s) && !RxReady(k, s)))
    && (Announced(k, s') <==> Announced(k, s) || RxReady(k, s))
    && (RxReady(k, s) ==> Between(k, s) && UartRx.Out(k.c, s.rx) == Clean(k.c, FrameByte(k, s)))
    && (TxReady(s) ==> Before(s))
  }

  lemma ClkPhases(k: Conf, s: Uart, i: ClkIn)
    requires Machines(k, s)
    ensures PhasesMove(k, s, Clk(k, s, i))
  {
    LagDone(k.c, s.tx, s.rx, FrameByte(k, s));
  }

  lemma ClkAccounts(k: Conf, s: Uart, i: ClkIn)
    requires k.depth >= 2 && |s.txq| <= k.depth && Accounts(k, s) && PhasesMove(k, s, Clk(k, s, i))
    ensures Accounts(k, Clk(k, s, i)) && |Clk(k, s, i).txq| <= k.depth
  {
    ClkQueue(k, s, i);
    ClkCompletes(k, s, i);
  }

  lemma ClkCompletes(k: Conf, s: Uart, i: ClkIn)
    requires Accounts(k, s) && PhasesMove(k, s, Clk(k, s, i))
    ensures var l := Clk(k, s, i).log;
      |l.completed| <= |l.accepted| && l.completed == CleanAll(k.c, l.accepted[..|l.completed|])
  {
    var a, d := s.log.accepted, |s.log.completed|;
    var a' := Clk(k, s, i).log.accepted;
    assert a'[..d] == a[..d];
    if RxReady(k, s) {
      CleanGrows(k.c, a', d);
    }
  }

  lemma SameByte(a: seq<Reg8>, a': seq<Reg8>, d: int)
    requires a <= a' && 0 <= d < |a|
    ensures ByteAt(a', d) == ByteAt(a, d)
  {
  }

  lemma ClkLogGrows(k: Conf, s: Uart, i: ClkIn)
    ensures s.log.accepted <= Clk(k, s, i).log.accepted
    ensures |Clk(k, s, i).log.completed| == |s.log.completed| + B2N(RxReady(k, s))
  {
  }

  /** The frame on the line stays the same frame. */
  lemma ClkFrameNumber(k: Conf, s: Uart, i: ClkIn)
    requires PhasesMove(k, s, Clk(k, s, i))
    ensures |Clk(k, s, i).log.completed| - B2N(Announced(k, Clk(k, s, i))) == |s.log.completed| - B2N(Announced(k, s))
  {
    ClkLogGrows(k, s, i);
    if RxReady(k, s) {
      assert Between(k, s) && !Announced(k, s);
    }
  }

  lemma FrameNumber(k: Conf, s: Uart)
    requires Accounts(k, s) && InFrame(s.tx)
    ensures 0 <= |s.log.completed| - B2N(Announced(k, s)) < |s.log.accepted|
  {
  }

  lemma ClkFrameByte(k: Conf, s: Uart, i: ClkIn)
    requires Accounts(k, s) && PhasesMove(k, s, Clk(k, s, i)) && InFrame(s.tx)
    ensures FrameByte(k, Clk(k, s, i)) == FrameByte(k, s)
  {
    FrameNumber(k, s);
    ClkFrameNumber(k, s, i);
    ClkLogGrows(k, s, i);
    SameByte(s.log.accepted, Clk(k, s, i).log.accepted, |s.log.completed| - B2N(Announced(k, s)));
  }

  lemma ClkMachines(k: Conf, s: Uart, i: ClkIn)
    requires Accounts(k, s) && PhasesMove(k, s, Clk(k, s, i)) && Machines(k, s)
    ensures Machines(k, Clk(k, s, i))
  {
    if InFrame(s.tx) {
      ClkFrameByte(k, s, i);
    } else {
      AnyByte(k.c, s.tx, FrameByte(k, s), FrameByte(k, Clk(k, s, i)));
    }
  }

  /** What a clock makes of the receive side: whether the word announced now, if any, is pushed. */
  ghost predicate Receives(k: Conf, s: Uart, s': Uart, rd: bool) {
    var word, push := UartRx.Out(k.c, s.rx), RxReady(k, s) && !RxFull(k, s);
    var l, l' := s.log, s'.log;
    && s'.rxq == Queue.Step(s.rxq, k.depth, push, rd, word)
    && l'.pushed == (if push then l.pushed + [word] else l.pushed)
    && l'.read == (if rd && s.rxq != [] then l.read + [s.rxq[0]] else l.read)
    && (if RxReady(k, s) then
          l'.completed == l.completed + [word] && l'.kept == l.kept + [push]
          && l'.overruns == l.overruns + B2N(!push)
        else l'.completed == l.completed && l'.kept == l.kept && l'.overruns == l.overruns)
  }

  lemma ClkReceives(k: Conf, s: Uart, i: ClkIn)
    ensures Receives(k, s, Clk(k, s, i), i.rd)
  {
  }

  lemma ClkFlag(k: Conf, s: Uart, i: ClkIn)
    requires s.log.owed <==> s.oe && !s.postRd
    ensures var s' := Clk(k, s, i);
      && (s'.log.owed <==> s'.oe && !s'.postRd)
      && (RxReady(k, s) && RxFull(k, s) ==> s'.oe)
      && (s.oe && !s'.oe ==> s.postRd && !s.log.owed)
  {
  }

  /** The log of the words selected stays one. */
  lemma ClkSelects(k: Conf, s: Uart, s': Uart, rd: bool)
    requires Receives(k, s, s', rd) && |s.log.kept| == |s.log.completed|
    requires s.log.pushed == Select(s.log.completed, s.log.kept) && s.log.overruns == LeftOut(s.log.kept)
    ensures |s'.log.kept| == |s'.log.completed|
    ensures s'.log.pushed == Select(s'.log.completed, s'.log.kept) && s'.log.overruns == LeftOut(s'.log.kept)
  {
    SelectOne(s.log.completed, s.log.kept, UartRx.Out(k.c, s.rx), RxReady(k, s) && !RxFull(k, s));
  }

  /** And what was pushed is still what was read followed by what is queued. */
  lemma ClkReads(k: Conf, s: Uart, s': Uart, rd: bool)
    requires Receives(k, s, s', rd) && k.depth >= 2 && |s.rxq| <= k.depth && s.log.pushed == s.log.read + s.rxq
    ensures |s'.rxq| <= k.depth && s'.log.pushed == s'.log.read + s'.rxq
  {
    var push := RxReady(k, s) && !RxFull(k, s);
    Queue.Conserved(s.log.pushed, s.log.read, s.rxq, k.depth, push, rd, UartRx.Out(k.c, s.rx));
  }

  /** Each announced word is pushed into the receive FIFO or counted as an overrun, never both
      and never neither; an overrun raises LSR.OE, and the flag stays up until an LSR read has
      shown it. */
  lemma ClkConserves(k: Conf, s: Uart, i: ClkIn)
    requires k.depth >= 2 && |s.rxq| <= k.depth && Conserved(s)
    ensures var s' := Clk(k, s, i);
      && |s'.rxq| <= k.depth && Conserved(s')
      && (RxReady(k, s) ==>
            (s'.log.pushed == s.log.pushed + [UartRx.Out(k.c, s.rx)] && s'.log.overruns == s.log.overruns)
            != (s'.log.pushed == s.log.pushed && s'.log.overruns == s.log.overruns + 1 && s'.oe))
      && (!RxReady(k, s) ==> s'.log.pushed == s.log.pushed && s'.log.overruns == s.log.overruns)
      && (s.oe && !s'.oe ==> s.postRd && !s.log.owed)
  {
    var s' := Clk(k, s, i);
    ClkReceives(k, s, i);
    ClkFlag(k, s, i);
    ClkSelects(k, s, s', i.rd);
    ClkReads(k, s, s', i.rd);
  }

  lemma ClkKeeps(k: Conf, s: Uart, i: ClkIn)
    requires Inv(k, s)
    ensures Inv(k, Clk(k, s, i)) && Seen(k, Clk(k, s, i))
  {
    ClkPhases(k, s, i);
    ClkAccounts(k, s, i);
    ClkMachines(k, s, i);
    ClkConserves(k, s, i);
  }

  // ----- whole runs

  /** The level of the serial line; what the FIFO shows while empty does not matter. */
  predicate LineNow(k: Conf, s: Uart) { Line(k, s, Rep(8, false)) }

  lemma LineIsLineNow(k: Conf, s: Uart, stale: Reg8)
    requires Accounts(k, s)
    ensures Line(k, s, stale) == LineNow(k, s)
  {
    if s.tx.fsm == UartTx.PARITY {
      HeadIsFrameByte(k, s, stale);
    }
  }

  /** The line is constant between ticks. */
  lemma ClkLine(k: Conf, s: Uart, i: ClkIn)
    requires Inv(k, s)
    ensures LineNow(k, Clk(k, s, i)) == LineNow(k, s)
  {
    if s.tx.fsm == UartTx.PARITY {
      ClkPhases(k, s, i);
      ClkAccounts(k, s, i);
      ClkFrameByte(k, s, i);
      HeadIsFrameByte(k, s, Rep(8, false));
      HeadIsFrameByte(k, Clk(k, s, i), Rep(8, false));
    }
  }

  /** n clocks after a tick: both levels seen after one, the synchroniser settled after two. */
  ghost predicate Settles(k: Conf, s: Uart, n: nat) {
    && (n >= 1 ==> Seen(k, s) && s.sync.b0 == LineNow(k, s))
    && (n >= 2 ==> s.sync.b1 == LineNow(k, s))
  }

  lemma {:induction false} ClksKeep(k: Conf, s: Uart, ins: seq<ClkIn>)
    requires Inv(k, s)
    ensures Inv(k, Clks(k, s, ins)) && Settles(k, Clks(k, s, ins), |ins|)
  {
    if ins != [] {
      var s1, i := Clks(k, s, ins[..|ins| - 1]), ins[|ins| - 1];
      ClksKeep(k, s, ins[..|ins| - 1]);
      ClkKeeps(k, s1, i);
      ClkLine(k, s1, i);
      LineIsLineNow(k, s1, i.stale);
    }
  }

  /** The state just before a baud tick. */
  ghost predicate Boundary(k: Conf, s: Uart) {
    && Inv(k, s) && Seen(k, s)
    && (k.sync ==> s.sync.b0 == s.sync.b1 == LineNow(k, s))
  }

  lemma InitMachines(k: Conf, s: Uart)
    requires Init(k, s)
    ensures Machines(k, s) && Seen(k, s)
  {
  }

  lemma InitAccounts(k: Conf, s: Uart)
    requires Init(k, s)
    ensures Accounts(k, s) && Conserved(s)
  {
    assert CleanAll(k.c, []) == [];
  }

  lemma InitLine(k: Conf, s: Uart)
    requires Init(k, s)
    ensures LineNow(k, s)
  {
  }

  lemma InitBoundary(k: Conf, s: Uart)
    requires Init(k, s)
    ensures Boundary(k, s)
  {
    InitMachines(k, s);
    InitAccounts(k, s);
    InitLine(k, s);
  }

  lemma PeriodKeeps(k: Conf, s: Uart, p: Period)
    requires Boundary(k, s) && Timely(k, p)
    ensures Inv(k, Tick(k, s, p.tick))
    ensures Boundary(k, Clks(k, Tick(k, s, p.tick), p.clks))
  {
    LineIsLineNow(k, s, p.tick.stale);
    TickKeeps(k, s, p.tick);
    ClksKeep(k, Tick(k, s, p.tick), p.clks);
  }

  lemma {:induction false} Reachable(k: Conf, s: Uart, ps: seq<Period>)
    requires Init(k, s) && forall p :: p in ps ==> Timely(k, p)
    ensures Boundary(k, Run(k, s, ps))
  {
    if ps == [] {
      InitBoundary(k, s);
    } else {
      Reachable(k, s, ps[..|ps| - 1]);
      PeriodKeeps(k, Run(k, s, ps[..|ps| - 1]), ps[|ps| - 1]);
    }
  }

  /** The round trip.  For every line setting, every schedule of writes and reads and every
      timing of the clocks, the announced words are the accepted bytes in order, masked, with
      both error bits 0, and none is lost between the CPU and the receiver. */
  lemma RoundTrip(k: Conf, s0: Uart, ps: seq<Period>)
    requires Init(k, s0) && forall p :: p in ps ==> Timely(k, p)
    ensures var s := Run(k, s0, ps);
      var l := s.log;
      && |l.completed| <= |l.accepted| <= |l.completed| + |s.txq| + 1
      && l.completed == CleanAll(k.c, l.accepted[..|l.completed|])
      && (s.tx.fsm == UartTx.IDLE && s.txq == [] ==> |l.completed| == |l.accepted|)
  {
    Reachable(k, s0, ps);
    var s := Run(k, s0, ps);
    assert s.log.accepted[|s.log.accepted| - |s.txq|..] == s.txq;
  }

  /** What the CPU reads: the words read and those still queued are the clean words of the first bytes
      written, in order, with exactly the overruns left out, and LSR.OE shows an overrun, but for
      the clock after a read of LSR, if and only if there is one the CPU has not seen. */
  lemma Delivery(k: Conf, s0: Uart, ps: seq<Period>)
    requires Init(k, s0) && forall p :: p in ps ==> Timely(k, p)
    ensures var s := Run(k, s0, ps);
      var l := s.log;
      && |l.kept| == |l.completed| <= |l.accepted|
      && l.read + s.rxq == Select(CleanAll(k.c, l.accepted[..|l.kept|]), l.kept)
      && LeftOut(l.kept) == l.overruns == |l.completed| - |l.read| - |s.rxq|
      && (l.owed <==> s.oe && !s.postRd)
  {
    Reachable(k, s0, ps);
    var s := Run(k, s0, ps);
    SelectLength(s.log.completed, s.log.kept);
  }
}
