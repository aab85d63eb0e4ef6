/** The UART receiver (UART/uart_rx.sv), one step per baud tick. */
module UartRx {
  import opened Bits
  import opened UartLine

  datatype Fsm = IDLE | START | DATA | PARITY | STOP

  /** The registers of the receiver: state, tick and bit counters, receive shift register, the
      three samples of the current bit, and the parity latch. */
  datatype Rx = Rx(fsm: Fsm, ticks: nat, bits: nat, rsr: Reg8, s0: bool, s1: bool, s2: bool, par: bool)

  ghost predicate Valid(c: Cfg, r: Rx) {
    r.ticks < c.T() && r.bits < 8
  }

  /** The state after reset; whatever reset leaves alone holds anything. */
  ghost predicate Reset(c: Cfg, r: Rx) { r.fsm == IDLE && r.ticks == c.T() - 1 && r.bits < 8 }

  // Tick counts at which a bit is sampled, and at which a word is announced.
  function SampleA(c: Cfg): int { c.half - c.Delta() }
  function SampleB(c: Cfg): int { c.half }
  function SampleC(c: Cfg): int { c.half + c.Delta() }
  function SampleD(c: Cfg): int { SampleC(c) + 1 }

  predicate Voted(r: Rx) { Maj(r.s0, r.s1, r.s2) }

  predicate LastBit(c: Cfg, bits: nat) { bits >= 4 && bits % 4 == c.Wls() }

  /** The next-state latch; see UartTx.NextFsm about held. */
  function NextFsm(c: Cfg, r: Rx, held: Fsm, din: bool): Fsm {
    match r.fsm
    case START => if !Voted(r) then DATA else IDLE
    case DATA => if LastBit(c, r.bits) then (if c.Pen() then PARITY else STOP) else held
    case PARITY => STOP
    case _ => if !din then START else IDLE
  }

  /** The receiver after samples and count. */
  function Counted(c: Cfg, r: Rx, din: bool): Rx {
    r.(ticks := if r.fsm == IDLE && din then c.T() - 1 else if r.ticks + 1 == c.T() then 0 else r.ticks + 1,
       s0 := if r.ticks == SampleA(c) then din else r.s0,
       s1 := if r.ticks == SampleB(c) then din else r.s1,
       s2 := if r.ticks == SampleC(c) then din else r.s2)
  }

  /** The receiver after the edges that the count made. */
  function Edged(c: Cfg, r: Rx, before: nat, next: Fsm): Rx {
    if r.ticks == c.T() - 1 && before != c.T() - 1 && r.fsm == DATA then r.(rsr := r.rsr[1..] + [Voted(r)])
    else if r.ticks == 0 && before != 0 then r.(fsm := next, bits := if r.fsm == DATA then (r.bits + 1) % 8 else 0)
    else r
  }

  function Unlatched(c: Cfg, r: Rx, din: bool): Rx {
    var r1 := Counted(c, r, din);
    Edged(c, r1, r.ticks, NextFsm(c, r1, r.fsm, din))
  }

  /** One baud tick with the line at din.  The samples are taken with the counter as it was
      before the tick; the shift register is clocked when the counter reaches its last value
      and the state when it wraps to 0.  The parity latch is open before and after. */
  function Tick(c: Cfg, r: Rx, din: bool): Rx {
    var r2 := Unlatched(c, r, din);
    if r.fsm == PARITY || r2.fsm == PARITY then r2.(par := Voted(r2)) else r2
  }

  /** The pulse that announces a word. */
  predicate Done(c: Cfg, r: Rx) { r.fsm == STOP && r.ticks == SampleD(c) }

  /** The data bits, right aligned. */
  function Sout(c: Cfg, r: Rx): Reg8 {
    r.rsr[3 - c.Wls()..] + Rep(3 - c.Wls(), false)
  }

  function Out(c: Cfg, r: Rx): RxWord {
    var sout := Sout(c, r);
    var expected := if c.Sp() then !c.Eps() else if c.Eps() then XorAll(sout) else !XorAll(sout);
    RxWord(r.fsm == STOP && !Voted(r), c.Pen() && expected != r.par, sout)
  }

  // ----- the receiver within a frame

  /** The samples of one bit. */
  datatype Samples = Samples(a: bool, b: bool, c: bool) {
    predicate Vote() { Maj(a, b, c) }
  }

  /** How many data bits have been shifted in after the votes v when the counter is at ticks. */
  function Shifted(c: Cfg, v: Bits, ticks: nat): nat {
    if |v| == 0 then 0
    else if |v| <= c.N() then |v| - 1 + (if ticks == c.T() - 1 then 1 else 0)
    else c.N()
  }

  /** The state that receives bit number cell of a frame. */
  function FsmAt(c: Cfg, cell: nat): Fsm {
    if cell == 0 then START
    else if cell <= c.N() then DATA
    else if cell == c.StopCell() then STOP
    else PARITY
  }

  /** The receiver has taken the votes v for the bits before the current one, whose samples are
      (or will be) s. */
  ghost predicate At(c: Cfg, r: Rx, v: Bits, s: Samples) {
    && Within(c, r, |v|)
    && Sampled(c, r, s)
    && HasData(r.rsr, v + [s.Vote()], Shifted(c, v, r.ticks))
    && (r.fsm == STOP && c.Pen() ==> r.par == v[c.N() + 1])
  }

  /** State and bit counter are those for bit number cell of a frame. */
  ghost predicate Within(c: Cfg, r: Rx, cell: nat) {
    && Valid(c, r)
    && cell <= c.StopCell()
    && r.fsm == FsmAt(c, cell)
    && (r.fsm == DATA ==> r.bits == cell - 1)
  }

  /** The samples taken so far are those of s. */
  ghost predicate Sampled(c: Cfg, r: Rx, s: Samples) {
    && (r.ticks > SampleA(c) ==> r.s0 == s.a)
    && (r.ticks > SampleB(c) ==> r.s1 == s.b)
    && (r.ticks > SampleC(c) ==> r.s2 == s.c)
  }

  /** The top k bits of the shift register are the votes after the start bit. */
  ghost predicate HasData(rsr: Reg8, w: Bits, k: nat) {
    k <= 8 && k < |w| && rsr[8 - k..] == w[1..1 + k]
  }

  lemma DataShift(rsr: Reg8, w: Bits, k: nat)
    requires HasData(rsr, w, k) && k < 8 && k + 2 == |w|
    ensures HasData(rsr[1..] + [w[k + 1]], w, k + 1)
  {
    assert (rsr[1..] + [w[k + 1]])[8 - k - 1..] == rsr[8 - k..] + [w[k + 1]];
    assert w[1..1 + k + 1] == w[1..1 + k] + [w[k + 1]];
  }

  lemma DataKept(rsr: Reg8, w: Bits, k: nat, b: bool)
    requires HasData(rsr, w, k)
    ensures HasData(rsr, w + [b], k)
  {
    assert (w + [b])[1..1 + k] == w[1..1 + k];
  }

  /** The line din is the sample of s that is due at this count, if one is due. */
  predicate Supplies(c: Cfg, s: Samples, ticks: nat, din: bool) {
    && (ticks == SampleA(c) ==> din == s.a)
    && (ticks == SampleB(c) ==> din == s.b)
    && (ticks == SampleC(c) ==> din == s.c)
  }

  /** Inside a bit. */
  lemma AtInside(c: Cfg, r: Rx, v: Bits, s: Samples, din: bool)
    requires At(c, r, v, s) && r.ticks < c.T() - 1 && Supplies(c, s, r.ticks, din)
    ensures At(c, Tick(c, r, din), v, s) && Tick(c, r, din).ticks == r.ticks + 1
  {
    var r' := Tick(c, r, din);
    TickInside(c, r, din);
    if r.ticks + 1 == c.T() - 1 && r.fsm == DATA {
      DataShift(r.rsr, v + [s.Vote()], |v| - 1);
      assert Voted(r') == s.Vote();
      assert HasData(r'.rsr, v + [s.Vote()], Shifted(c, v, r'.ticks));
    } else {
      assert Shifted(c, v, r'.ticks) == Shifted(c, v, r.ticks);
      assert HasData(r'.rsr, v + [s.Vote()], Shifted(c, v, r'.ticks));
    }
  }

  /** What a tick inside a bit does. */
  lemma TickInside(c: Cfg, r: Rx, din: bool)
    requires Valid(c, r) && r.fsm != IDLE && r.ticks < c.T() - 1
    ensures var r' := Tick(c, r, din);
      && r'.fsm == r.fsm && r'.bits == r.bits && r'.ticks == r.ticks + 1
      && r'.s0 == (if r.ticks == SampleA(c) then din else r.s0)
      && r'.s1 == (if r.ticks == SampleB(c) then din else r.s1)
      && r'.s2 == (if r.ticks == SampleC(c) then din else r.s2)
      && r'.rsr == (if r.ticks + 1 == c.T() - 1 && r.fsm == DATA then r.rsr[1..] + [Voted(r')] else r.rsr)
      && (r.fsm != PARITY ==> r'.par == r.par)
  {
  }

  /** A start bit voted 1 sends the receiver back to IDLE. */
  lemma FalseStart(c: Cfg, r: Rx, s: Samples, din: bool)
    requires At(c, r, [], s) && r.ticks == c.T() - 1 && s.Vote()
    ensures Tick(c, r, din).fsm == IDLE && Tick(c, r, din).ticks == 0 && Valid(c, Tick(c, r, din))
  {
    assert SampleC(c) < c.T() - 1;
    TickEnd(c, r, din);
  }

  /** The end of any other bit before the stop bit: its vote joins the earlier ones. */
  lemma AtEnd(c: Cfg, r: Rx, v: Bits, s: Samples, din: bool, next: Samples)
    requires At(c, r, v, s) && r.ticks == c.T() - 1 && |v| < c.StopCell()
    requires |v| == 0 ==> !s.Vote()
    ensures At(c, Tick(c, r, din), v + [s.Vote()], next) && Tick(c, r, din).ticks == 0
  {
    NextCell(c, r, v, s, din);
    assert Shifted(c, v + [s.Vote()], 0) == Shifted(c, v, r.ticks);
    DataKept(r.rsr, v + [s.Vote()], Shifted(c, v, r.ticks), next.Vote());
  }

  /** Each state hands over to the one for the next bit of the frame. */
  lemma NextCell(c: Cfg, r: Rx, v: Bits, s: Samples, din: bool)
    requires Within(c, r, |v|) && Sampled(c, r, s) && r.ticks == c.T() - 1 && |v| < c.StopCell()
    requires |v| == 0 ==> !s.Vote()
    ensures Within(c, Tick(c, r, din), |v| + 1)
    ensures Tick(c, r, din).ticks == 0 && Tick(c, r, din).rsr == r.rsr
    ensures Tick(c, r, din).fsm == STOP && c.Pen() ==> r.fsm == PARITY
    ensures r.fsm == PARITY ==> |v| == c.N() + 1 && Tick(c, r, din).par == s.Vote()
  {
    assert SampleC(c) < c.T() - 1;
    TickEnd(c, r, din);
  }

  /** What the tick that wraps the counter does. */
  lemma TickEnd(c: Cfg, r: Rx, din: bool)
    requires Valid(c, r) && r.ticks == c.T() - 1
    requires r.fsm != IDLE
    ensures var r' := Tick(c, r, din);
      && r'.fsm == NextFsm(c, r, r.fsm, din)
      && r'.bits == (if r.fsm == DATA then (r.bits + 1) % 8 else 0)
      && r'.ticks == 0 && r'.rsr == r.rsr
      && (r.fsm == PARITY ==> r'.par == Voted(r))
      && (r.fsm != PARITY && r'.fsm != PARITY ==> r'.par == r.par)
  {
  }

  /** The end of the stop bit, and waiting: the line alone decides. */
  lemma AtRest(c: Cfg, r: Rx, din: bool, next: Samples)
    requires Valid(c, r) && (r.fsm == IDLE || r.fsm == STOP) && r.ticks == c.T() - 1
    ensures var r' := Tick(c, r, din);
      if din then r'.fsm == IDLE && Valid(c, r') && r'.ticks == (if r.fsm == IDLE then c.T() - 1 else 0)
      else At(c, r', [], next) && r'.ticks == 0
  {
    assert ([] + [next.Vote()])[1..1] == [];
  }

  /** The word the votes stand for. */
  function WordOf(c: Cfg, v: Bits, stop: bool): RxWord
    requires |v| == c.StopCell()
  {
    var data := v[1..c.N() + 1] + Rep(8 - c.N(), false);
    var expected := if c.Sp() then !c.Eps() else XorAll(v[1..c.N() + 1]) == c.Eps();
    RxWord(!stop, c.Pen() && expected != v[c.N() + 1], data)
  }

  lemma {:induction false} XorAllZeros(a: Bits, n: nat)
    ensures XorAll(a + Rep(n, false)) == XorAll(a)
  {
    if n == 0 {
      assert a + Rep(n, false) == a;
    } else {
      XorAllZeros(a, n - 1);
      XorAllAppend(a + Rep(n - 1, false), false);
      assert a + Rep(n, false) == a + Rep(n - 1, false) + [false];
    }
  }

  /** From the third sample of the stop bit on, the output is that word. */
  lemma OutIsWordOf(c: Cfg, r: Rx, v: Bits, s: Samples)
    requires At(c, r, v, s) && |v| == c.StopCell() && r.ticks > SampleC(c)
    ensures Out(c, r) == WordOf(c, v, s.Vote())
  {
    var n := c.N();
    assert (v + [s.Vote()])[1..1 + n] == v[1..n + 1];
    XorAllZeros(v[1..n + 1], 8 - n);
  }

  /** A frame read correctly gives the byte it carries, masked and free of errors. */
  lemma FrameWord(c: Cfg, byte: Reg8)
    ensures WordOf(c, c.Frame(byte, c.StopCell()), true) == Clean(c, byte)
  {
    assert c.Frame(byte, c.StopCell())[1..c.N() + 1] == byte[..c.N()];
  }
}
