/** Transmitter and receiver as clocked objects (UART/uart_tx.sv, UART/uart_rx.sv), with the
    next-state latches as registers of their own. */
module UartHardware {
  import opened Bits
  import opened UartLine
  import T = UartTx
  import R = UartRx

  class Transmitter {
    const c: Cfg
    var fsm: T.Fsm
    var nextFsm: T.Fsm
    var ticks: nat
    var bits: nat
    var sreg: Reg8

    /** The next-state latch is closed: more data bits or another stop bit to come. */
    predicate Closed()
      reads this
    {
      (fsm == T.DATA && !T.LastBit(c, bits)) || (fsm == T.STOP && !T.HalfStop(c) && bits != B2N(c.Stb()))
    }

    ghost predicate Valid()
      reads this
    {
      T.Valid(c, Value()) && (Closed() ==> nextFsm == fsm)
    }

    function Value(): T.Tx
      reads this
    {
      T.Tx(fsm, ticks, bits, sreg)
    }

    constructor (c: Cfg)
      ensures this.c == c && Valid() && T.Reset(Value())
    {
      this.c := c;
      fsm, nextFsm, ticks, bits, sreg := T.IDLE, T.IDLE, 0, 0, Rep(8, false);
    }

    /** The latch follows its inputs while it is open. */
    method Settle(start: bool)
      requires Valid()
      modifies this`nextFsm
      ensures Valid() && nextFsm == T.NextFsm(c, fsm, bits, fsm, start)
    {
      match fsm {
        case START => nextFsm := T.DATA;
        case DATA =>
          if T.LastBit(c, bits) {
            nextFsm := if c.Pen() then T.PARITY else T.STOP;
          }
        case PARITY => nextFsm := T.STOP;
        case STOP =>
          if T.HalfStop(c) {
            nextFsm := T.STOP_HALF;
          } else if bits == B2N(c.Stb()) {
            nextFsm := if start then T.START else T.IDLE;
          }
        case _ => nextFsm := if start then T.START else T.IDLE;
      }
    }

    /** One baud tick: the tick counter, and when it comes to 0 the shift register, the bit
        counter and the state. */
    method BaudTick(start: bool, din: Reg8, floating: bool)
      requires Valid()
      modifies this
      ensures Valid() && Value() == T.Tick(c, old(Value()), start, din, floating)
    {
      Settle(start);
      var before := ticks;
      ticks := T.NextTicks(c, Value());
      if ticks == 0 && before != 0 {
        FirstTick(din, floating);
      }
    }

    method FirstTick(din: Reg8, floating: bool)
      modifies this
      ensures fsm == nextFsm == old(nextFsm) && ticks == old(ticks)
      ensures bits == if old(fsm) in {T.DATA, T.STOP} && !T.LastBit(c, old(bits)) then (old(bits) + 1) % 8 else 0
      ensures sreg == if old(fsm) == T.START then din
                      else if old(fsm) == T.DATA then old(sreg)[1..] + [floating] else old(sreg)
    {
      var cbIncr := fsm == T.DATA || fsm == T.STOP;
      if fsm == T.START {
        sreg := din;
      } else if fsm == T.DATA {
        sreg := sreg[1..] + [floating];
      }
      bits := if !cbIncr || T.LastBit(c, bits) then 0 else (bits + 1) % 8;
      fsm := nextFsm;
    }
  }

  class Receiver {
    const c: Cfg
    var fsm: R.Fsm
    var nextFsm: R.Fsm
    var ticks: nat
    var bits: nat
    var rsr: Reg8
    var s0: bool
    var s1: bool
    var s2: bool
    var par: bool

    ghost predicate Valid()
      reads this
    {
      R.Valid(c, Value()) && (fsm == R.DATA && !R.LastBit(c, bits) ==> nextFsm == fsm)
    }

    function Value(): R.Rx
      reads this
    {
      R.Rx(fsm, ticks, bits, rsr, s0, s1, s2, par)
    }

    predicate Voted()
      reads this
    {
      (s0 && s1) || (s0 && s2) || (s1 && s2)
    }

    constructor (c: Cfg)
      ensures this.c == c && Valid() && R.Reset(c, Value())
    {
      this.c := c;
      fsm, nextFsm, ticks, bits, rsr := R.IDLE, R.IDLE, c.T() - 1, 0, Rep(8, false);
      s0, s1, s2, par := true, true, true, false;
    }

    method Settle(din: bool)
      requires Valid()
      modifies this`nextFsm
      ensures Valid() && nextFsm == R.NextFsm(c, Value(), fsm, din)
    {
      match fsm {
        case START => nextFsm := if !Voted() then R.DATA else R.IDLE;
        case DATA =>
          if R.LastBit(c, bits) {
            nextFsm := if c.Pen() then R.PARITY else R.STOP;
          }
        case PARITY => nextFsm := R.STOP;
        case _ => nextFsm := if !din then R.START else R.IDLE;
      }
    }

    /** The three samples, at the counts before the tick. */
    method Sample(din: bool)
      modifies this`s0, this`s1, this`s2
      ensures s0 == if ticks == R.SampleA(c) then din else old(s0)
      ensures s1 == if ticks == R.SampleB(c) then din else old(s1)
      ensures s2 == if ticks == R.SampleC(c) then din else old(s2)
    {
      if ticks == R.SampleA(c) { s0 := din; }
      if ticks == R.SampleB(c) { s1 := din; }
      if ticks == R.SampleC(c) { s2 := din; }
    }

    /** The parity latch is open during the parity bit. */
    method LatchParity()
      modifies this`par
      ensures par == if fsm == R.PARITY then Voted() else old(par)
    {
      if fsm == R.PARITY {
        par := Voted();
      }
    }

    method Count(din: bool)
      requires ticks < c.T()
      modifies this`ticks
      ensures ticks == if fsm == R.IDLE && din then c.T() - 1 else if old(ticks) + 1 == c.T() then 0 else old(ticks) + 1
    {
      if fsm == R.IDLE && din {
        ticks := c.T() - 1;
      } else {
        ticks := if ticks + 1 == c.T() then 0 else ticks + 1;
      }
    }

    /** Samples and tick counter together. */
    method CountAndSample(din: bool)
      requires Valid()
      modifies this`ticks, this`s0, this`s1, this`s2
      ensures Value() == R.Counted(c, old(Value()), din)
      ensures Valid()
    {
      Sample(din);
      Count(din);
    }

    /** The edges of last_tick and first_tick: the shift register, or bit counter and state. */
    method Edges(before: nat)
      modifies this`rsr, this`bits, this`fsm
      ensures Value() == R.Edged(c, old(Value()), before, nextFsm)
    {
      if ticks == c.T() - 1 && before != c.T() - 1 && fsm == R.DATA {
        rsr := rsr[1..] + [Voted()];
      } else if ticks == 0 && before != 0 {
        bits := if fsm == R.DATA then (bits + 1) % 8 else 0;
        fsm := nextFsm;
      }
    }

    /** Everything but the parity latch. */
    method Clocked(din: bool)
      requires Valid()
      modifies this`ticks, this`s0, this`s1, this`s2, this`nextFsm, this`rsr, this`bits, this`fsm
      ensures Valid() && Value() == R.Unlatched(c, old(Value()), din)
    {
      ghost var r, r1 := Value(), R.Counted(c, Value(), din);
      var before := ticks;
      CountAndSample(din);
      Settle(din);
      Edges(before);
      EdgedValid(c, r, r1, nextFsm);
    }

    /** One baud tick: samples and tick counter, then what their edges clock.  The parity latch
        is open before and after the edges. */
    method BaudTick(din: bool)
      requires Valid()
      modifies this
      ensures Valid() && Value() == R.Tick(c, old(Value()), din)
    {
      var inParity := fsm == R.PARITY;
      Clocked(din);
      if inParity {
        par := Voted();
      }
      LatchParity();
    }
  }

  lemma EdgedValid(c: Cfg, r: R.Rx, r1: R.Rx, next: R.Fsm)
    requires R.Valid(c, r) && R.Valid(c, r1)
    ensures R.Valid(c, R.Edged(c, r1, r.ticks, next))
  {
  }
}
