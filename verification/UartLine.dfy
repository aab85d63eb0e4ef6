/** The line control register and the serial frame it describes (regmap.vh and the
    PC16550D data sheet, section 8.1).  This is the reference both halves of the UART are
    measured against: it knows nothing of state machines or tick counters. */
module UartLine {
  import opened Bits

  type Reg8 = b: Bits | |b| == 8 witness [false, false, false, false, false, false, false, false]

  /** Half the oversampling rate: 4, 8 or 16 for 8, 16 or 32 ticks a bit. */
  type Rate = h: nat | h >= 4 witness 8

  /** A configuration: the rate and the value of the line control register, held constant. */
  datatype Cfg = Cfg(half: Rate, lcr: Reg8) {

    /** Ticks per bit. */
    function T(): nat { 2 * half }

    /** Distance between the samples of a bit. */
    function Delta(): nat { if half > 4 then 2 else 1 }

    // The fields of the line control register.
    function Wls(): (w: nat)
      ensures w < 4
    {
      B2N(lcr[0]) + 2 * B2N(lcr[1])
    }
    predicate Stb() { lcr[2] }
    predicate Pen() { lcr[3] }
    predicate Eps() { lcr[4] }
    predicate Sp() { lcr[5] }

    /** Data bits per character: 5 to 8. */
    function N(): (n: nat)
      ensures 5 <= n <= 8
    {
      5 + Wls()
    }

    /** Index of the first stop bit within the frame. */
    function StopCell(): nat { N() + 1 + B2N(Pen()) }

    /** Length of the stop signal in ticks: 1, 1.5 or 2 bits. */
    function StopTicks(): nat {
      if !Stb() then T() else if N() == 5 then T() + half else 2 * T()
    }

    function FrameTicks(): nat { StopCell() * T() + StopTicks() }

    /** The parity bit that goes with a character. */
    predicate ParityOf(byte: Reg8) {
      if Sp() then !Eps() else XorAll(byte[..N()]) == Eps()
    }

    /** Bit number cell of the frame that carries byte: start, data from the least
        significant bit up, parity if enabled, then stop. */
    predicate FrameBit(byte: Reg8, cell: nat) {
      if cell == 0 then false
      else if cell <= N() then byte[cell - 1]
      else if cell == N() + 1 && Pen() then ParityOf(byte)
      else true
    }

    /** The first m bits of the frame. */
    function Frame(byte: Reg8, m: nat): (f: Bits)
      ensures |f| == m && forall i :: 0 <= i < m ==> f[i] == FrameBit(byte, i)
    {
      seq(m, i requires 0 <= i => FrameBit(byte, i))
    }

    /** What a receiver should report for byte: the low N bits, the rest cleared. */
    function Masked(byte: Reg8): Reg8 {
      byte[..N()] + Rep(8 - N(), false)
    }
  }

  /** A received word: framing error, parity error, data. */
  datatype RxWord = RxWord(framing: bool, parity: bool, data: Reg8)

  /** The error-free word for a byte. */
  function Clean(c: Cfg, byte: Reg8): RxWord {
    RxWord(false, false, c.Masked(byte))
  }

  lemma {:induction false} XorAllAppend(a: Bits, b: bool)
    ensures XorAll(a + [b]) == (XorAll(a) != b)
  {
    if a == [] {
      assert (a + [b])[1..] == [];
    } else {
      XorAllAppend(a[1..], b);
      assert (a + [b])[1..] == a[1..] + [b];
    }
  }

  /** Number of ones in a vector. */
  function Ones(a: Bits): nat {
    if a == [] then 0 else B2N(a[0]) + Ones(a[1..])
  }

  lemma {:induction false} XorAllIsOddOnes(a: Bits)
    ensures XorAll(a) <==> Ones(a) % 2 == 1
  {
    if a != [] {
      XorAllIsOddOnes(a[1..]);
    }
  }

  /** Data and parity bit together hold an even number of ones under even parity and an odd
      number under odd parity; under stick parity the bit is the complement of EPS. */
  lemma ParityMeaning(c: Cfg, byte: Reg8)
    ensures !c.Sp() && c.Eps() ==> Ones(byte[..c.N()] + [c.ParityOf(byte)]) % 2 == 0
    ensures !c.Sp() && !c.Eps() ==> Ones(byte[..c.N()] + [c.ParityOf(byte)]) % 2 == 1
    ensures c.Sp() ==> c.ParityOf(byte) == !c.Eps()
  {
    XorAllAppend(byte[..c.N()], c.ParityOf(byte));
    XorAllIsOddOnes(byte[..c.N()] + [c.ParityOf(byte)]);
  }

  /** The masked byte is the byte modulo 2^N. */
  lemma MaskedValue(c: Cfg, byte: Reg8)
    ensures Val(c.Masked(byte)) == Val(byte) % Pow2(c.N())
  {
    var n := c.N();
    ValSplitDivMod(byte, n);
    ZeroExtendVal(byte[..n], 8 - n);
  }
}
