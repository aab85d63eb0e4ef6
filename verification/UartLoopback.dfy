/** The whole UART in loopback mode (UART/uart.sv and the overrun flag of UART/uart_top.sv):
    transmitter, receiver, both FIFOs, edge detectors, line synchroniser, LSR.OE.

    Time is a sequence of baud periods: one baud tick, then the system clocks up to the next
    tick.  Each system clock is its falling edge (status flags) followed by its rising edge
    (FIFOs and edge detectors). */
module UartLoopback {
  import opened Bits
  import opened UartLine
  import Queue
  import UartTx
  import UartRx

  /** Line configuration, FIFO depth, FIFO mode, and whether the divisor is large enough for the
      synchroniser to be in the receive path. */
  datatype Conf = Conf(c: Cfg, depth: nat, fifoEn: bool, sync: bool)

  /** The three synchroniser stages, newest first. */
  datatype Sync = Sync(b0: bool, b1: bool, b2: bool) {
    predicate Out() { Maj(b0, b1, b2) }
  }

  /** What has happened so far: bytes accepted from the CPU, words announced by the receiver and
      which of them were pushed into the receive FIFO, the words pushed, overruns, words read by the
      CPU, and whether an overrun is still owed to the CPU, that is, no LSR read has shown it. */
  datatype Log = Log(accepted: seq<Reg8>, completed: seq<RxWord>, kept: seq<bool>, pushed: seq<RxWord>,
                     overruns: nat, read: seq<RxWord>, owed: bool)

  datatype Uart = Uart(tx: UartTx.Tx, rx: UartRx.Rx, txq: seq<Reg8>, rxq: seq<RxWord>,
                       pulled: bool, doneSet: bool, sync: Sync, oe: bool, postRd: bool, log: Log)

  /** One baud tick.  stale is the FIFO output while the FIFO is empty, floating the open serial
      input of the transmit shift register. */
  datatype TickIn = TickIn(stale: Reg8, floating: bool)

  /** One system clock: a write to THR, a read of RBR, a read of LSR. */
  datatype ClkIn = ClkIn(wr: bool, data: Reg8, rd: bool, lsrRd: bool, stale: Reg8)

  datatype Period = Period(tick: TickIn, clks: seq<ClkIn>)

  function Head(q: seq<Reg8>, stale: Reg8): Reg8 { if q == [] then stale else q[0] }

  predicate Line(k: Conf, s: Uart, stale: Reg8) { UartTx.Dout(k.c, s.tx, Head(s.txq, stale)) }

  predicate RxDin(k: Conf, s: Uart, stale: Reg8) { if k.sync then s.sync.Out() else Line(k, s, stale) }

  function Tick(k: Conf, s: Uart, i: TickIn): Uart {
    s.(tx := UartTx.Tick(k.c, s.tx, s.txq != [], Head(s.txq, i.stale), i.floating),
       rx := UartRx.Tick(k.c, s.rx, RxDin(k, s, i.stale)))
  }

  predicate RxFull(k: Conf, s: Uart) { if k.fifoEn then |s.rxq| == k.depth else s.rxq != [] }
  predicate TxFull(k: Conf, s: Uart) { if k.fifoEn then |s.txq| == k.depth else s.txq != [] }

  /** Rising edges of the two levels, as the system clock sees them. */
  predicate RxReady(k: Conf, s: Uart) { UartRx.Done(k.c, s.rx) && !s.doneSet }
  predicate TxReady(s: Uart) { UartTx.Pull(s.tx) && !s.pulled }

  function Clk(k: Conf, s: Uart, i: ClkIn): Uart {
    var ready := RxReady(k, s);
    var word := UartRx.Out(k.c, s.rx);
    var overrun := RxFull(k, s) && ready;
    var oe := if overrun then true else if s.postRd then false else s.oe;
    var txPush := i.wr && !TxFull(k, s);
    var rxPush := ready && !RxFull(k, s);
    Uart(s.tx, s.rx,
         Queue.Step(s.txq, k.depth, txPush, TxReady(s), i.data),
         Queue.Step(s.rxq, k.depth, rxPush, i.rd, word),
         UartTx.Pull(s.tx),
         UartRx.Done(k.c, s.rx),
         Sync(Line(k, s, i.stale), s.sync.b0, s.sync.b1),
         oe,
         i.lsrRd,
         Log(if txPush then s.log.accepted + [i.data] else s.log.accepted,
             if ready then s.log.completed + [word] else s.log.completed,
             if ready then s.log.kept + [rxPush] else s.log.kept,
             if rxPush then s.log.pushed + [word] else s.log.pushed,
             s.log.overruns + B2N(overrun),
             if i.rd && s.rxq != [] then s.log.read + [s.rxq[0]] else s.log.read,
             (s.log.owed || overrun) && !(i.lsrRd && oe)))
  }

  function Clks(k: Conf, s: Uart, ins: seq<ClkIn>): Uart {
    if ins == [] then s else Clk(k, Clks(k, s, ins[..|ins| - 1]), ins[|ins| - 1])
  }

  function Run(k: Conf, s: Uart, ps: seq<Period>): Uart {
    if ps == [] then s
    else
      var p := ps[|ps| - 1];
      Clks(k, Tick(k, Run(k, s, ps[..|ps| - 1]), p.tick), p.clks)
  }

  /** The baud generator leaves at least one system clock between ticks; the synchroniser needs
      two (it is only used with divisors of at least 4). */
  ghost predicate Timely(k: Conf, p: Period) {
    |p.clks| >= 1 && (k.sync ==> |p.clks| >= 2)
  }

  /** After a reset of at least one clock. */
  ghost predicate Init(k: Conf, s: Uart) {
    && k.depth >= 2
    && UartTx.Reset(s.tx) && UartRx.Reset(k.c, s.rx)
    && s.txq == [] && s.rxq == []
    && !s.pulled && !s.doneSet && s.sync == Sync(true, true, true)
    && !s.oe && !s.postRd
    && s.log == Log([], [], [], [], 0, [], false)
  }
}
