/** The UART in loopback mode as one object: transmitter, receiver, the two circular buffers, the
    edge detectors, the synchroniser and LSR.OE (UART/uart.sv, UART/uart_top.sv).  Each method
    refines the step of the same name in UartLoopback. */
module UartObject {
  import opened Bits
  import opened UartLine
  import Queue
  import T = UartTx
  import R = UartRx
  import F = Fifo
  import H = UartHardware
  import L = UartLoopback

  class Uart {
    const k: L.Conf
    const tx: H.Transmitter
    const rx: H.Receiver
    const txFifo: F.Fifo<Reg8>
    const rxFifo: F.Fifo<RxWord>
    var pulled: bool
    var doneSet: bool
    var sync: L.Sync
    var oe: bool
    var postRd: bool
    ghost var log: L.Log

    ghost predicate Valid()
      reads this, tx, rx, txFifo, rxFifo, txFifo.mem, rxFifo.mem
    {
      && tx.c == k.c && rx.c == k.c && tx.Valid() && rx.Valid()
      && txFifo.Valid() && rxFifo.Valid() && txFifo.n == k.depth == rxFifo.n
    }

    /** The abstract state. */
    ghost function Value(): L.Uart
      requires Valid()
      reads this, tx, rx, txFifo, rxFifo, txFifo.mem, rxFifo.mem
    {
      L.Uart(tx.Value(), rx.Value(), txFifo.Contents(), rxFifo.Contents(), pulled, doneSet, sync, oe, postRd, log)
    }

    constructor (c: Cfg, addrWidth: nat, fifoEn: bool, sync: bool)
      requires addrWidth >= 1
      ensures Valid() && fresh(tx) && fresh(rx) && fresh(txFifo) && fresh(rxFifo)
      ensures k == L.Conf(c, Pow2(addrWidth), fifoEn, sync) && L.Init(k, Value())
    {
      k := L.Conf(c, Pow2(addrWidth), fifoEn, sync);
      tx := new H.Transmitter(c);
      rx := new H.Receiver(c);
      txFifo := new F.Fifo(addrWidth);
      rxFifo := new F.Fifo(addrWidth);
      pulled, doneSet, oe, postRd := false, false, false, false;
      this.sync := L.Sync(true, true, true);
      log := L.Log([], [], [], [], 0, [], false);
    }

    /** One baud tick of both machines, each seeing the state before it. */
    method Tick(floating: bool) returns (ghost i: L.TickIn)
      requires Valid()
      modifies tx, rx
      ensures Valid() && Value() == L.Tick(k, old(Value()), i)
    {
      var start := !txFifo.Empty();
      var din := txFifo.Dout();
      i := L.TickIn(din, floating);
      var line := T.Dout(k.c, tx.Value(), din);
      var rxDin := if k.sync then sync.Out() else line;
      tx.BaudTick(start, din, floating);
      rx.BaudTick(rxDin);
    }

    /** The wires of uart.sv before the clock; head is the transmit FIFO's output. */
    method Signals(wr: bool) returns (w: Wires, head: Reg8)
      requires Valid()
      ensures w == WiresOf(k, Value(), wr, head)
    {
      head := txFifo.Dout();
      HeadIs(txFifo.Contents(), head);
      var rxFull := (k.fifoEn && rxFifo.Full()) || (!k.fifoEn && !rxFifo.Empty());
      var txFull := (k.fifoEn && txFifo.Full()) || (!k.fifoEn && !txFifo.Empty());
      var pull, done := T.Pull(tx.Value()), R.Done(k.c, rx.Value());
      var rxReady, txReady := done && !doneSet, pull && !pulled;
      w := Wires(T.Dout(k.c, tx.Value(), head), pull, done, R.Out(k.c, rx.Value()), rxReady, txReady,
                 rxReady && !rxFull, wr && !txFull, rxFull && rxReady);
    }

    /** Both FIFOs. */
    method Buffers(w: Wires, data: Reg8, rd: bool)
      requires Valid()
      modifies txFifo, txFifo.mem, rxFifo, rxFifo.mem
      ensures Valid()
      ensures txFifo.Contents() == Queue.Step(old(txFifo.Contents()), k.depth, w.txPush, w.txReady, data)
      ensures rxFifo.Contents() == Queue.Step(old(rxFifo.Contents()), k.depth, w.rxPush, rd, w.word)
    {
      txFifo.Clock(false, w.txPush, w.txReady, data);
      rxFifo.Clock(false, w.rxPush, rd, w.word);
    }

    /** The flip-flops.  On the falling edge an overrun sets the flag and wins over the clock
        after an LSR read. */
    method FlipFlops(w: Wires, lsrRd: bool)
      modifies this`pulled, this`doneSet, this`sync, this`oe, this`postRd
      ensures oe == if w.overrun then true else if old(postRd) then false else old(oe)
      ensures postRd == lsrRd && pulled == w.pull && doneSet == w.done
      ensures sync == L.Sync(w.line, old(sync).b0, old(sync).b1)
    {
      if w.overrun {
        oe := true;
      } else if postRd {
        oe := false;
      }
      postRd := lsrRd;
      pulled, doneSet := w.pull, w.done;
      sync := L.Sync(w.line, sync.b0, sync.b1);
    }

    /** Both edges, for given wires. */
    method Drive(w: Wires, ghost i: L.ClkIn, data: Reg8, rd: bool, lsrRd: bool)
      requires Valid() && i.data == data && i.rd == rd && i.lsrRd == lsrRd
      modifies this`pulled, this`doneSet, this`sync, this`oe, this`postRd, this`log
      modifies txFifo, txFifo.mem, rxFifo, rxFifo.mem
      ensures Valid() && Value() == Driven(k, old(Value()), w, i)
    {
      ghost var s := Value();
      Buffers(w, data, rd);
      FlipFlops(w, lsrRd);
      log := L.Clk(k, s, i).log;
    }

    /** One system clock: the overrun flag on the falling edge, then both FIFOs, the edge
        detectors and the synchroniser on the rising edge. */
    method Clk(wr: bool, data: Reg8, rd: bool, lsrRd: bool) returns (ghost i: L.ClkIn)
      requires Valid()
      modifies this`pulled, this`doneSet, this`sync, this`oe, this`postRd, this`log
      modifies txFifo, txFifo.mem, rxFifo, rxFifo.mem
      ensures Valid() && Value() == L.Clk(k, old(Value()), i)
    {
      ghost var s := Value();
      var w, head := Signals(wr);
      i := L.ClkIn(wr, data, rd, lsrRd, head);
      DrivenIsClk(k, s, i);
      Drive(w, i, data, rd, lsrRd);
    }
  }

  /** The serial output, the two levels, the received word, their rising edges, the gated pushes
      and the overrun condition. */
  datatype Wires = Wires(line: bool, pull: bool, done: bool, word: RxWord, rxReady: bool, txReady: bool,
                         rxPush: bool, txPush: bool, overrun: bool)

  function WiresOf(k: L.Conf, s: L.Uart, wr: bool, head: Reg8): Wires {
    Wires(L.Line(k, s, head), T.Pull(s.tx), R.Done(k.c, s.rx), R.Out(k.c, s.rx), L.RxReady(k, s), L.TxReady(s),
          L.RxReady(k, s) && !L.RxFull(k, s), wr && !L.TxFull(k, s), L.RxFull(k, s) && L.RxReady(k, s))
  }

  ghost function Driven(k: L.Conf, s: L.Uart, w: Wires, i: L.ClkIn): L.Uart {
    L.Uart(s.tx, s.rx,
           Queue.Step(s.txq, k.depth, w.txPush, w.txReady, i.data),
           Queue.Step(s.rxq, k.depth, w.rxPush, i.rd, w.word),
           w.pull, w.done, L.Sync(w.line, s.sync.b0, s.sync.b1),
           if w.overrun then true else if s.postRd then false else s.oe, i.lsrRd, L.Clk(k, s, i).log)
  }

  lemma DrivenIsClk(k: L.Conf, s: L.Uart, i: L.ClkIn)
    ensures Driven(k, s, WiresOf(k, s, i.wr, i.stale), i) == L.Clk(k, s, i)
  {
  }

  lemma HeadIs(q: seq<Reg8>, head: Reg8)
    requires q != [] ==> head == q[0]
    ensures L.Head(q, head) == head
  {
  }
}
