/** The UART transmitter (UART/uart_tx.sv), one step per baud tick. */
module UartTx {
  import opened Bits
  import opened UartLine

  datatype Fsm = IDLE | START | DATA | PARITY | STOP | STOP_HALF

  /** The registers of the transmitter: state, tick counter, bit counter, shift register. */
  datatype Tx = Tx(fsm: Fsm, ticks: nat, bits: nat, sreg: Reg8)

  ghost predicate Valid(c: Cfg, t: Tx) {
    t.ticks < c.T() && t.bits < 8
  }

  /** The state after reset; the bit counter and the shift register hold anything. */
  ghost predicate Reset(t: Tx) { t.fsm == IDLE && t.ticks == 0 && t.bits < 8 }

  predicate LastBit(c: Cfg, bits: nat) { bits >= 4 && bits % 4 == c.Wls() }

  predicate HalfStop(c: Cfg) { c.Wls() == 0 && c.Stb() }

  /** The next-state latch.  With a constant line control register a closed latch still
      holds the state it was last clocked into, so held is the current state. */
  function NextFsm(c: Cfg, fsm: Fsm, bits: nat, held: Fsm, start: bool): Fsm {
    match fsm
    case START => DATA
    case DATA => if LastBit(c, bits) then (if c.Pen() then PARITY else STOP) else held
    case PARITY => STOP
    case STOP =>
      if HalfStop(c) then STOP_HALF
      else if bits == B2N(c.Stb()) then (if start then START else IDLE)
      else held
    case _ => if start then START else IDLE
  }

  function NextTicks(c: Cfg, t: Tx): nat {
    if t.fsm == STOP_HALF then NextHalfTicks(c, t.ticks) else if t.ticks + 1 == c.T() then 0 else t.ticks + 1
  }

  /** (count_ticks | half) + 1, modulo the number of ticks. */
  function NextHalfTicks(c: Cfg, ticks: nat): nat {
    var high := if ticks < c.half then ticks + c.half else ticks;
    if high + 1 == c.T() then 0 else high + 1
  }

  /** One baud tick.  start is "the transmit FIFO is not empty", din its output, and floating
      the unconnected serial input of the shift register. */
  function Tick(c: Cfg, t: Tx, start: bool, din: Reg8, floating: bool): Tx {
    var ticks := NextTicks(c, t);
    if ticks == 0 && t.ticks != 0 then
      Tx(NextFsm(c, t.fsm, t.bits, t.fsm, start),
         0,
         if t.fsm in {DATA, STOP} && !LastBit(c, t.bits) then (t.bits + 1) % 8 else 0,
         if t.fsm == START then din
         else if t.fsm == DATA then t.sreg[1..] + [floating]
         else t.sreg)
    else
      t.(ticks := ticks)
  }

  /** The parity bit as uart_tx computes it from the FIFO output. */
  predicate ParityBit(c: Cfg, din: Reg8) {
    var parity := match c.Wls()
      case 0 => XorAll(din[0..5])
      case 1 => XorAll(din[0..6])
      case 2 => XorAll(din[0..7])
      case _ => XorAll(din);
    if c.Sp() then !c.Eps() else if c.Eps() then parity else !parity
  }

  /** The serial output. */
  predicate Dout(c: Cfg, t: Tx, din: Reg8) {
    match t.fsm
    case START => false
    case DATA => t.sreg[0]
    case PARITY => ParityBit(c, din)
    case _ => true
  }

  /** The level whose rising edge takes the byte out of the transmit FIFO. */
  predicate Pull(t: Tx) { t.fsm == STOP && t.bits == 0 && t.ticks == 1 }

  /** The flag behind LSR.TEMT: the shift register has nothing left to send. */
  predicate TsrEmpty(t: Tx) { t.fsm in {IDLE, STOP, STOP_HALF} }

  // ----- between frames

  /** ts are the states of the transmitter along ticks with nothing in the FIFO. */
  ghost predicate Waiting(c: Cfg, ts: seq<Tx>) {
    forall n :: 0 <= n < |ts| - 1 ==> WaitStep(c, ts, n)
  }

  ghost predicate WaitStep(c: Cfg, ts: seq<Tx>, n: nat)
    requires n + 1 < |ts|
  {
    exists din, floating :: ts[n + 1] == Tick(c, ts[n], false, din, floating)
  }

  /** From a reset, or after a frame, with nothing to send: the line stays high, TEMT stays up and nothing is
      pulled, for as long as one likes. */
  lemma {:induction false} IdleWaits(c: Cfg, ts: seq<Tx>, n: nat, din: Reg8)
    requires Waiting(c, ts) && n < |ts| && ts[0].fsm == IDLE
    ensures ts[n].fsm == IDLE && Dout(c, ts[n], din) && TsrEmpty(ts[n]) && !Pull(ts[n])
  {
    if n > 0 {
      IdleWaits(c, ts, n - 1, din);
      assert WaitStep(c, ts, n - 1);
    }
  }

  // ----- the transmitter within a frame

  /** Which bit of the frame the registers stand for. */
  function Cell(c: Cfg, t: Tx): nat {
    match t.fsm
    case START => 0
    case DATA => 1 + t.bits
    case PARITY => c.N() + 1
    case STOP => c.StopCell() + t.bits
    case STOP_HALF => c.StopCell() + 1
    case IDLE => c.StopCell() + 2
  }

  /** The transmitter is sending the frame of byte. */
  ghost predicate Sending(c: Cfg, t: Tx, byte: Reg8) {
    && Valid(c, t)
    && t.fsm != IDLE
    && (t.fsm == DATA ==> t.bits < c.N() && HasRest(t.sreg, byte, t.bits, c.N()))
    && (t.fsm == PARITY ==> c.Pen())
    && (t.fsm == STOP ==> t.bits == 0 || (t.bits == 1 && c.Stb() && c.Wls() != 0))
    && (t.fsm == STOP_HALF ==> HalfStop(c) && (t.ticks == 0 || t.ticks > c.half))
  }

  /** The shift register holds bits b..n of byte, next to send first. */
  ghost predicate HasRest(sreg: Reg8, byte: Reg8, b: nat, n: nat) {
    b <= n <= 8 && sreg[..n - b] == byte[b..n]
  }

  lemma RestShift(sreg: Reg8, byte: Reg8, b: nat, n: nat, floating: bool)
    requires HasRest(sreg, byte, b, n) && b < n
    ensures HasRest(sreg[1..] + [floating], byte, b + 1, n)
    ensures sreg[0] == byte[b]
  {
    assert sreg[..n - b][0] == byte[b..n][0];
    assert (sreg[1..] + [floating])[..n - b - 1] == sreg[..n - b][1..];
    assert byte[b..n][1..] == byte[b + 1..n];
  }

  /** The byte is still needed: it has not been pulled from the FIFO before the stop bit. */
  predicate NeedsByte(t: Tx) { t.fsm in {START, DATA, PARITY} }

  /** Index of the last bit of the frame. */
  function LastCell(c: Cfg): nat { c.StopCell() + B2N(c.Stb()) }

  /** How long a bit of the frame lasts: 1.5 stop bits end in half a bit. */
  function CellTicks(c: Cfg, cell: nat): nat {
    if cell == LastCell(c) && HalfStop(c) then c.half else c.T()
  }

  /** The tick at which a bit of the frame begins. */
  function CellStart(c: Cfg, cell: nat): nat {
    if cell == 0 then 0 else CellStart(c, cell - 1) + CellTicks(c, cell - 1)
  }

  /** The tick at which the stop signal begins: StopCell bits into the frame. */
  function StopStart(c: Cfg): nat { CellStart(c, c.StopCell()) }

  /** Ticks since the current bit began; the tick counter skips the first half of a half bit. */
  function Sub(c: Cfg, t: Tx): int {
    if t.fsm == STOP_HALF && t.ticks != 0 then t.ticks - c.half else t.ticks
  }

  /** Ticks since the frame began. */
  function Pos(c: Cfg, t: Tx): int {
    CellStart(c, Cell(c, t)) + Sub(c, t)
  }

  lemma ParityBitAgrees(c: Cfg, byte: Reg8)
    ensures ParityBit(c, byte) == c.ParityOf(byte)
  {
    assert byte[0..c.N()] == byte[..c.N()];
    assert byte[..8] == byte;
  }

  /** While a frame is sent the line shows the frame bit of the current cell. */
  lemma LineShowsFrame(c: Cfg, t: Tx, byte: Reg8, din: Reg8)
    requires Sending(c, t, byte)
    requires NeedsByte(t) ==> din == byte
    ensures Dout(c, t, din) == c.FrameBit(byte, Cell(c, t))
  {
    ParityBitAgrees(c, byte);
    if t.fsm == DATA {
      RestShift(t.sreg, byte, t.bits, c.N(), false);
    }
  }

  /** A tick inside a bit changes nothing but the tick counter; the tick that ends a bit moves
      to the next one, and from the last one to a new start bit or to IDLE. */
  lemma SendingStep(c: Cfg, t: Tx, byte: Reg8, start: bool, din: Reg8, floating: bool)
    requires Sending(c, t, byte)
    requires NeedsByte(t) ==> din == byte
    ensures Cell(c, t) <= LastCell(c)
    ensures var t' := Tick(c, t, start, din, floating);
      && t'.bits < 8
      && (t'.ticks != 0 ==> Sending(c, t', byte) && t' == t.(ticks := t'.ticks))
      && (t'.ticks == 0 ==> t.ticks == c.T() - 1)
      && (t'.ticks == 0 && Cell(c, t) < LastCell(c) ==>
            Sending(c, t', byte) && Cell(c, t') == Cell(c, t) + 1)
      && (t'.ticks == 0 && Cell(c, t) == LastCell(c) ==> t'.fsm == if start then START else IDLE)
  {
    if NextTicks(c, t) == 0 {
      if t.fsm == DATA {
        RestShift(t.sreg, byte, t.bits, c.N(), floating);
      } else if t.fsm == START {
        assert HasRest(din, din, 0, c.N());
      }
      BitEnds(c, t, byte, start, din, floating);
    }
  }

  lemma BitEnds(c: Cfg, t: Tx, byte: Reg8, start: bool, din: Reg8, floating: bool)
    requires Sending(c, t, byte) && NextTicks(c, t) == 0
    ensures t.ticks == c.T() - 1
    ensures var t' := Tick(c, t, start, din, floating);
      && t'.bits == (if t.fsm in {DATA, STOP} && !LastBit(c, t.bits) then t.bits + 1 else 0)
      && t'.fsm == NextFsm(c, t.fsm, t.bits, t.fsm, start)
      && t'.ticks == 0
  {
  }

  /** In ticks: every tick moves one tick further through the frame, whose length is exactly
      FrameTicks. */
  lemma PosStep(c: Cfg, t: Tx, byte: Reg8, start: bool, din: Reg8, floating: bool)
    requires Sending(c, t, byte)
    requires NeedsByte(t) ==> din == byte
    ensures 0 <= Pos(c, t) < c.FrameTicks()
    ensures var t' := Tick(c, t, start, din, floating);
      if Pos(c, t) + 1 < c.FrameTicks() then
        Sending(c, t', byte) && Pos(c, t') == Pos(c, t) + 1
      else
        t'.ticks == 0 && t'.bits < 8 && t'.fsm == if start then START else IDLE
  {
    CellStep(c, t, byte, start, din, floating);
    FrameLength(c);
    StartsInOrder(c, Cell(c, t));
  }

  lemma StartsInOrder(c: Cfg, cell: nat)
    requires cell <= LastCell(c)
    ensures CellStart(c, cell + 1) <= CellStart(c, LastCell(c) + 1)
    ensures cell < LastCell(c) ==> CellStart(c, cell + 1) < CellStart(c, LastCell(c) + 1)
  {
    CellStartMono(c, cell + 1, LastCell(c) + 1);
    if cell < LastCell(c) {
      CellStartMono(c, cell + 1, LastCell(c));
    }
  }

  lemma CellStep(c: Cfg, t: Tx, byte: Reg8, start: bool, din: Reg8, floating: bool)
    requires Sending(c, t, byte)
    requires NeedsByte(t) ==> din == byte
    ensures Cell(c, t) <= LastCell(c) && 0 <= Sub(c, t) < CellTicks(c, Cell(c, t))
    ensures var t' := Tick(c, t, start, din, floating);
      if Sub(c, t) + 1 < CellTicks(c, Cell(c, t)) then
        Sending(c, t', byte) && Cell(c, t') == Cell(c, t) && Sub(c, t') == Sub(c, t) + 1
      else if Cell(c, t) < LastCell(c) then
        Sending(c, t', byte) && Cell(c, t') == Cell(c, t) + 1 && Sub(c, t') == 0
      else
        t'.ticks == 0 && t'.bits < 8 && t'.fsm == if start then START else IDLE
  {
    SendingStep(c, t, byte, start, din, floating);
    SubRange(c, t, byte);
  }

  lemma SubRange(c: Cfg, t: Tx, byte: Reg8)
    requires Sending(c, t, byte)
    ensures 0 <= Sub(c, t) < CellTicks(c, Cell(c, t))
    ensures t.ticks == c.T() - 1 <==> Sub(c, t) == CellTicks(c, Cell(c, t)) - 1
  {
  }

  lemma {:induction false} CellStartMono(c: Cfg, a: nat, b: nat)
    requires a <= b
    ensures CellStart(c, a) <= CellStart(c, b)
  {
    if a < b {
      CellStartMono(c, a, b - 1);
    }
  }

  /** Every bit up to the last begins at a multiple of the bit length ... */
  lemma {:induction false} CellStartIs(c: Cfg, cell: nat)
    requires cell <= LastCell(c)
    ensures CellStart(c, cell) == cell * c.T()
  {
    if cell > 0 {
      CellStartIs(c, cell - 1);
      assert cell * c.T() == (cell - 1) * c.T() + c.T();
    }
  }

  /** ... and the bits add up to the length the data sheet gives. */
  lemma FrameLength(c: Cfg)
    ensures CellStart(c, LastCell(c) + 1) == c.FrameTicks()
  {
    CellStartIs(c, LastCell(c));
    assert LastCell(c) * c.T() == c.StopCell() * c.T() + B2N(c.Stb()) * c.T();
  }

  /** The inputs of one tick. */
  datatype TxIn = TxIn(start: bool, din: Reg8, floating: bool)

  function Run(c: Cfg, t: Tx, ins: seq<TxIn>): Tx {
    if ins == [] then t
    else
      var last := ins[|ins| - 1];
      Tick(c, Run(c, t, ins[..|ins| - 1]), last.start, last.din, last.floating)
  }

  /** The FIFO keeps showing byte until the stop bit begins. */
  predicate Holds(c: Cfg, byte: Reg8, ins: seq<TxIn>) {
    forall j :: 0 <= j < |ins| && j < StopStart(c) ==> ins[j].din == byte
  }

  lemma {:induction false} RunPos(c: Cfg, t: Tx, byte: Reg8, ins: seq<TxIn>)
    requires Valid(c, t) && t.fsm == START && t.ticks == 0
    requires Holds(c, byte, ins) && |ins| <= c.FrameTicks()
    ensures |ins| < c.FrameTicks() ==> Sending(c, Run(c, t, ins), byte) && Pos(c, Run(c, t, ins)) == |ins|
    ensures |ins| == c.FrameTicks() ==>
      Run(c, t, ins).ticks == 0 && Run(c, t, ins).fsm == if ins[|ins| - 1].start then START else IDLE
  {
    FrameLength(c);
    CellStartMono(c, 1, LastCell(c) + 1);
    if |ins| > 0 {
      var before, last := ins[..|ins| - 1], ins[|ins| - 1];
      assert Holds(c, byte, before);
      RunPos(c, t, byte, before);
      var t1 := Run(c, t, before);
      CellOfPos(c, t1, byte);
      PosStep(c, t1, byte, last.start, last.din, last.floating);
    }
  }

  /** Frame shape.  From the first tick of a start bit, after j ticks the line shows the bit of
      the frame that covers tick j, for exactly FrameTicks ticks; the byte is pulled from the
      FIFO at one tick of the frame, the second of the first stop bit, which is after the
      parity bit. */
  lemma FrameShape(c: Cfg, t: Tx, byte: Reg8, ins: seq<TxIn>, din: Reg8, cell: nat)
    requires Valid(c, t) && t.fsm == START && t.ticks == 0
    requires Holds(c, byte, ins) && |ins| <= c.FrameTicks()
    requires |ins| < StopStart(c) ==> din == byte
    requires |ins| < c.FrameTicks() ==> CellStart(c, cell) <= |ins| < CellStart(c, cell + 1)
    ensures var t' := Run(c, t, ins);
      if |ins| < c.FrameTicks() then
        && Dout(c, t', din) == c.FrameBit(byte, cell)
        && (Pull(t') <==> |ins| == StopStart(c) + 1)
        && (TsrEmpty(t') <==> |ins| >= StopStart(c))
      else
        t'.ticks == 0 && t'.fsm == if ins[|ins| - 1].start then START else IDLE
  {
    RunPos(c, t, byte, ins);
    if |ins| < c.FrameTicks() {
      var t' := Run(c, t, ins);
      CellOfPos(c, t', byte);
      SameCell(c, cell, Cell(c, t'), |ins|);
      LineShowsFrame(c, t', byte, din);
    }
  }

  lemma SameCell(c: Cfg, a: nat, b: nat, pos: int)
    requires CellStart(c, a) <= pos < CellStart(c, a + 1)
    requires CellStart(c, b) <= pos < CellStart(c, b + 1)
    ensures a == b
  {
    if a < b {
      CellStartMono(c, a + 1, b);
    } else if b < a {
      CellStartMono(c, b + 1, a);
    }
  }

  /** The position determines the bit of the frame. */
  lemma CellOfPos(c: Cfg, t: Tx, byte: Reg8)
    requires Sending(c, t, byte)
    ensures CellStart(c, Cell(c, t)) <= Pos(c, t) < CellStart(c, Cell(c, t) + 1)
    ensures NeedsByte(t) <==> Pos(c, t) < StopStart(c)
    ensures Pull(t) <==> Pos(c, t) == StopStart(c) + 1
    ensures TsrEmpty(t) <==> Pos(c, t) >= StopStart(c)
  {
    SubRange(c, t, byte);
    if Cell(c, t) < c.StopCell() {
      CellStartMono(c, Cell(c, t) + 1, c.StopCell());
    } else {
      CellStartMono(c, c.StopCell(), Cell(c, t));
      if Cell(c, t) > c.StopCell() {
        CellStartMono(c, c.StopCell() + 1, Cell(c, t));
      }
    }
  }
}
