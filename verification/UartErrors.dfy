/** What the receiver reports about a frame that did not arrive as it was sent
    (UART/uart_rx.sv:97-140): the word and its flags in terms of the bits it voted for. */
module UartErrors {
  import opened Bits
  import opened UartLine
  import opened UartRx
  import opened UartNoise

  /** The parity bit received is not the one the data sheet asks for (PC16550D, section 8.1): data and
      parity bit together hold an odd number of ones under even parity, or an even number under odd parity;
      the stick parity bit is not the complement of EPS. */
  predicate WrongParity(c: Cfg, data: Bits, parity: bool) {
    if c.Sp() then parity == c.Eps()
    else if c.Eps() then Ones(data + [parity]) % 2 == 1
    else Ones(data + [parity]) % 2 == 0
  }

  lemma ParityCounts(data: Bits, parity: bool)
    ensures (XorAll(data) != parity) <==> Ones(data + [parity]) % 2 == 1
  {
    XorAllAppend(data, parity);
    XorAllIsOddOnes(data + [parity]);
  }

  /** The word for any votes: the data bits voted for, right aligned, the framing flag exactly if the stop
      bit was voted 0, the parity flag exactly if parity is on and the parity bit does not fit. */
  lemma WordMeaning(c: Cfg, v: Bits, stop: bool)
    requires |v| == c.StopCell()
    ensures var w := WordOf(c, v, stop);
      && w.data[..c.N()] == v[1..c.N() + 1] && Val(w.data) == Val(v[1..c.N() + 1])
      && (w.framing <==> !stop)
      && (w.parity <==> c.Pen() && WrongParity(c, v[1..c.N() + 1], v[c.N() + 1]))
  {
    ZeroExtendVal(v[1..c.N() + 1], 8 - c.N());
    if c.Pen() {
      ParityCounts(v[1..c.N() + 1], v[c.N() + 1]);
    }
  }

  /** How many bits differ. */
  function Differ(a: Bits, b: Bits): nat
    requires |a| == |b|
  {
    if a == [] then 0 else B2N(a[0] != b[0]) + Differ(a[1..], b[1..])
  }

  lemma {:induction false} DifferParity(a: Bits, b: Bits)
    requires |a| == |b|
    ensures (Ones(a) + Ones(b) + Differ(a, b)) % 2 == 0
  {
    if a != [] {
      DifferParity(a[1..], b[1..]);
    }
  }

  /** The data and parity bits of a frame. */
  function Covered(c: Cfg, byte: Reg8): Bits { byte[..c.N()] + [c.ParityOf(byte)] }

  /** Parity detects: whatever was sent and whatever was voted for, the flag is up if and only if an odd
      number of data and parity bits arrived wrong. */
  lemma ParityDetects(c: Cfg, byte: Reg8, v: Bits, stop: bool)
    requires |v| == c.StopCell() && c.Pen() && !c.Sp()
    ensures WordOf(c, v, stop).parity <==> Differ(v[1..c.N() + 2], Covered(c, byte)) % 2 == 1
  {
    WordMeaning(c, v, stop);
    ParityMeaning(c, byte);
    assert v[1..c.N() + 2] == v[1..c.N() + 1] + [v[c.N() + 1]];
    DifferParity(v[1..c.N() + 2], Covered(c, byte));
  }

  lemma {:induction false} DifferOnce(a: Bits, i: nat)
    requires i < |a|
    ensures Differ(a[i := !a[i]], a) == 1
  {
    DifferSame(a[1..]);
    if i > 0 {
      DifferOnce(a[1..], i - 1);
      assert a[i := !a[i]][1..] == a[1..][i - 1 := !a[i]];
    } else {
      assert a[0 := !a[0]][1..] == a[1..];
    }
  }

  lemma {:induction false} DifferSame(a: Bits)
    ensures Differ(a, a) == 0
  {
    if a != [] {
      DifferSame(a[1..]);
    }
  }

  lemma FrameCovered(c: Cfg, byte: Reg8)
    requires c.Pen()
    ensures c.Frame(byte, c.StopCell())[1..c.N() + 2] == Covered(c, byte)
  {
    var f, d := c.Frame(byte, c.StopCell())[1..c.N() + 2], Covered(c, byte);
    forall i | 0 <= i < c.N() + 1 ensures f[i] == d[i] {
      assert f[i] == c.FrameBit(byte, i + 1);
    }
  }

  /** One wrong bit among data and parity is always reported. */
  lemma OneWrongBit(c: Cfg, byte: Reg8, i: nat, stop: bool)
    requires c.Pen() && !c.Sp() && 1 <= i <= c.N() + 1
    ensures WordOf(c, c.Frame(byte, c.StopCell())[i := !c.FrameBit(byte, i)], stop).parity
  {
    var f := c.Frame(byte, c.StopCell());
    var v := f[i := !f[i]];
    FrameCovered(c, byte);
    assert v[1..c.N() + 2] == Covered(c, byte)[i - 1 := !Covered(c, byte)[i - 1]];
    DifferOnce(Covered(c, byte), i - 1);
    ParityDetects(c, byte, v, stop);
  }

  /** The flags of a word, given the votes. */
  ghost predicate Reports(c: Cfg, word: RxWord, v: Bits, stop: bool, byte: Reg8)
    requires |v| == c.StopCell()
  {
    && (word.framing <==> !stop)
    && (word.parity ==> c.Pen())
    && (c.Pen() && !c.Sp() ==> (word.parity <==> Differ(v[1..c.N() + 2], Covered(c, byte)) % 2 == 1))
    && (c.Pen() && c.Sp() ==> (word.parity <==> v[c.N() + 1] != c.ParityOf(byte)))
  }

  lemma WordReports(c: Cfg, v: Bits, stop: bool, byte: Reg8)
    requires |v| == c.StopCell()
    ensures Reports(c, WordOf(c, v, stop), v, stop, byte)
  {
    WordMeaning(c, v, stop);
    if c.Pen() && !c.Sp() {
      ParityDetects(c, byte, v, stop);
    }
  }

  lemma SameReport(c: Cfg, word: RxWord, other: RxWord, v: Bits, stop: bool, byte: Reg8)
    requires |v| == c.StopCell() && word == other && Reports(c, other, v, stop, byte)
    ensures Reports(c, word, v, stop, byte)
  {
  }

  /** On the line: whatever the waveform, the word announced after a start bit has the framing flag exactly
      if the stop bit was voted 0, and, for every byte that may have been sent, with even or odd parity the
      parity flag exactly if an odd number of its data and parity bits were voted wrong, with stick parity
      exactly if the parity bit was. */
  lemma ErrorsReported(c: Cfg, w: seq<bool>, rs: seq<Rx>, byte: Reg8)
    requires Run(c, w, rs) && Ready(c, rs[0], w) && |w| == BitStart(c, c.StopCell()) + SampleD(c)
    requires Covers(c, w, 0) && !SamplesOf(c, w, 0).Vote()
    ensures Covers(c, w, c.StopCell()) && Covers(c, w, c.StopCell() - 1) && Done(c, rs[|w|])
    ensures Reports(c, Out(c, rs[|w|]), Votes(c, w, c.StopCell()), SamplesOf(c, w, c.StopCell()).Vote(), byte)
  {
    VotesDecide(c, w, rs);
    var v, stop := Votes(c, w, c.StopCell()), SamplesOf(c, w, c.StopCell()).Vote();
    WordReports(c, v, stop, byte);
    SameReport(c, Out(c, rs[|w|]), WordOf(c, v, stop), v, stop, byte);
  }
}
