/** The SPI module (SPI/spi_top.sv): left justification, bit counter and shift path of a master,
    and a daisy chain of slaves.  One SPI clock is a shift edge of the master followed by a shift
    edge of the slaves, whatever the clock polarity. */
module Spi {
  import opened Bits
  import ShiftReg

  type Reg16 = b: Bits | |b| == 16 witness Rep(16, false)

  datatype Master = Master(sreg: Reg16, mosBuf: bool, counter: nat, sregEn: bool)

  /** pwdata << ~dlen: the low dlen + 1 bits go to the top. */
  function Justified(dlen: nat, word: Reg16): Reg16
    requires dlen < 16
  {
    Rep(15 - dlen, false) + word[..dlen + 1]
  }

  /** The next value of the 4-bit counter. */
  function NextCount(counter: nat): nat { if counter >= 15 then 0 else counter + 1 }

  /** The count limit compares the next count with dlen + 2, which is not cut to 4 bits. */
  predicate DataEnd(dlen: nat, counter: nat) { NextCount(counter) == dlen + 2 }

  /** A write of SPIDAT. */
  function Load(dlen: nat, m: Master, word: Reg16): Master
    requires dlen < 16
  {
    Master(Justified(dlen, word), m.sreg[15], 0, true)
  }

  /** The rising edge of the shift clock. */
  function Edge(dlen: nat, loopback: bool, m: Master, miso: bool): Master {
    var somi := if loopback then m.sreg[15] else miso;
    Master(if m.sregEn then ShiftReg.Up(m.sreg, somi) else m.sreg, m.sreg[15],
           if DataEnd(dlen, m.counter) then 0 else if m.sregEn then NextCount(m.counter) else m.counter,
           m.sregEn)
  }

  /** The low phase: at the end of the data the shift register is switched off, which also stops
      the baud clock. */
  function Low(dlen: nat, m: Master): Master { m.(sregEn := m.sregEn && !DataEnd(dlen, m.counter)) }

  /** What a read of SPIRXBUF shows. */
  function Received(dlen: nat, m: Master): Bits
    requires dlen < 16
  {
    m.sreg[..dlen + 1]
  }

  // ----- the chain

  datatype Chain = Chain(m: Master, slaves: seq<Reg16>)

  /** The serial output of the last slave, or din without slaves. */
  function SlavesOut(slaves: seq<Reg16>, din: bool): bool {
    if slaves == [] then din else slaves[|slaves| - 1][15]
  }

  /** All slaves shift at once, each taking what its predecessor shows. */
  function SlavesEdge(slaves: seq<Reg16>, din: bool): (r: seq<Reg16>)
    ensures |r| == |slaves|
  {
    if slaves == [] then [] else [ShiftReg.Up(slaves[0], din)] + SlavesEdge(slaves[1..], slaves[0][15])
  }

  /** One SPI clock, if the master is still shifting; otherwise the clock is stopped. */
  function Clock(dlen: nat, c: Chain): (r: Chain)
    ensures |r.slaves| == |c.slaves|
  {
    if !c.m.sregEn then c
    else
      var m := Edge(dlen, false, c.m, SlavesOut(c.slaves, c.m.mosBuf));
      Chain(Low(dlen, m), SlavesEdge(c.slaves, m.mosBuf))
  }

  /** A transfer: load a word, then n SPI clocks. */
  function Transfer(dlen: nat, c: Chain, word: Reg16, n: nat): (r: Chain)
    requires dlen < 16
    ensures |r.slaves| == |c.slaves|
  {
    if n == 0 then c.(m := Load(dlen, c.m, word)) else Clock(dlen, Transfer(dlen, c, word, n - 1))
  }

  // ----- the length of a transfer

  lemma ClockCounts(dlen: nat, c: Chain)
    ensures var m := Clock(dlen, c).m;
      && (c.m.sregEn && !DataEnd(dlen, c.m.counter) ==>
            m.counter == NextCount(c.m.counter) && m.sregEn == !DataEnd(dlen, m.counter))
      && (!c.m.sregEn ==> Clock(dlen, c) == c)
  {
  }

  /** A transfer is over after so many clocks. */
  predicate Over(dlen: nat, n: nat) { dlen <= 13 && n > dlen }

  /** The counter counts the shifts; with the two longest words its limit is out of reach. */
  lemma {:induction false} CounterCounts(dlen: nat, c: Chain, word: Reg16, n: nat)
    requires dlen < 16 && (dlen <= 13 ==> n <= dlen + 1)
    ensures Counted(dlen, n, Transfer(dlen, c, word, n).m)
  {
    if n > 0 {
      CounterCounts(dlen, c, word, n - 1);
      CountOne(dlen, n, Transfer(dlen, c, word, n - 1));
    }
  }

  /** The counter and the enable after n clocks. */
  ghost predicate Counted(dlen: nat, n: nat, m: Master) {
    (dlen <= 13 ==> m.counter == n) && (m.sregEn <==> !Over(dlen, n))
  }

  lemma CountOne(dlen: nat, n: nat, c: Chain)
    requires dlen < 16 && n > 0 && (dlen <= 13 ==> n <= dlen + 1) && Counted(dlen, n - 1, c.m)
    ensures Counted(dlen, n, Clock(dlen, c).m)
  {
    ClockCounts(dlen, c);
  }

  lemma {:induction false} Stopped(dlen: nat, c: Chain, word: Reg16, n: nat)
    requires dlen <= 13 && n >= dlen + 1
    ensures Transfer(dlen, c, word, n) == Transfer(dlen, c, word, dlen + 1)
    ensures !Transfer(dlen, c, word, n).m.sregEn
  {
    CounterCounts(dlen, c, word, dlen + 1);
    if n > dlen + 1 {
      Stopped(dlen, c, word, n - 1);
      ClockCounts(dlen, Transfer(dlen, c, word, n - 1));
    }
  }

  /** Whether a transfer is still going on. */
  lemma StillShifting(dlen: nat, c: Chain, word: Reg16, n: nat)
    requires dlen < 16
    ensures Transfer(dlen, c, word, n).m.sregEn <==> !Over(dlen, n)
  {
    if dlen <= 13 && n > dlen + 1 {
      Stopped(dlen, c, word, n);
    } else {
      CounterCounts(dlen, c, word, n);
    }
  }

  /** A transfer shifts on every clock up to dlen + 1 and then stops, if and only if dlen is at
      most 13: for 15 and 16 bits the 4-bit count never meets the limit and the clock runs on. */
  lemma TransferEnds(dlen: nat, c: Chain, word: Reg16)
    requires dlen < 16
    ensures dlen <= 13 <==> exists n: nat :: !Transfer(dlen, c, word, n).m.sregEn
    ensures forall n: nat :: Transfer(dlen, c, word, n).m.sregEn <==> dlen >= 14 || n <= dlen
  {
    forall n: nat ensures Transfer(dlen, c, word, n).m.sregEn <==> dlen >= 14 || n <= dlen {
      StillShifting(dlen, c, word, n);
    }
    if dlen <= 13 {
      assert !Transfer(dlen, c, word, dlen + 1).m.sregEn;
    }
  }

  // ----- the daisy chain is a delay line

  /** The slaves' registers end to end, the bit nearest to the master first. */
  function Line(slaves: seq<Reg16>): (r: Bits)
    ensures slaves != [] ==> |r| >= 16
  {
    if slaves == [] then [] else slaves[0] + Line(slaves[1..])
  }

  lemma UpAppend(a: Bits, b: Bits, din: bool)
    requires a != [] && b != []
    ensures ShiftReg.Up(a, din) + ShiftReg.Up(b, Msb(a)) == ShiftReg.Up(a + b, din)
  {
    assert a == a[..|a| - 1] + [Msb(a)];
    assert (a + b)[..|a + b| - 1] == a + b[..|b| - 1];
  }

  /** The chain shifts as one long register. */
  lemma {:induction false} LineShifts(slaves: seq<Reg16>, din: bool)
    requires slaves != []
    ensures Line(SlavesEdge(slaves, din)) == ShiftReg.Up(Line(slaves), din)
  {
    var rest := slaves[1..];
    assert SlavesEdge(slaves, din)[1..] == SlavesEdge(rest, slaves[0][15]);
    if rest != [] {
      LineShifts(rest, slaves[0][15]);
      UpAppend(slaves[0], Line(rest), din);
    } else {
      assert Line(slaves) == slaves[0];
    }
  }

  /** What leaves it is the output of the last slave. */
  lemma {:induction false} LineOut(slaves: seq<Reg16>, din: bool)
    requires slaves != []
    ensures SlavesOut(slaves, din) == Msb(Line(slaves))
  {
    var rest := slaves[1..];
    if rest != [] {
      LineOut(rest, din);
      assert Line(slaves) == slaves[0] + Line(rest);
    } else {
      assert Line(slaves) == slaves[0];
    }
  }

  /** n clocks into a transfer: n bits of the word are in the line, and the n bits that fell out of
      it are in the master. */
  ghost predicate Shifted(dlen: nat, line: Bits, word: Reg16, n: nat, c: Chain)
    requires dlen < 16 && n <= dlen + 1 && |line| >= 16
  {
    && c.slaves != [] && Line(c.slaves) == word[dlen + 1 - n..dlen + 1] + line[..|line| - n]
    && c.m.sreg == line[|line| - n..] + Justified(dlen, word)[..16 - n]
  }

  lemma ShiftOne(dlen: nat, line: Bits, word: Reg16, n: nat, c: Chain)
    requires dlen < 16 && n <= dlen && |line| >= 16 && Shifted(dlen, line, word, n, c) && c.m.sregEn
    ensures Shifted(dlen, line, word, n + 1, Clock(dlen, c))
  {
    LineShifts(c.slaves, c.m.sreg[15]);
    LineOut(c.slaves, c.m.mosBuf);
    BitOut(dlen, line, word, n, c.m.sreg);
    LineTakes(line, word, dlen - n, dlen + 1, n, Line(c.slaves));
    MasterTakes(line, Justified(dlen, word), n, c.m.sreg);
    assert Msb(Line(c.slaves)) == line[|line| - n - 1];
  }

  lemma BitOut(dlen: nat, line: Bits, word: Reg16, n: nat, sreg: Reg16)
    requires dlen < 16 && n <= dlen && |line| >= 16 && sreg == line[|line| - n..] + Justified(dlen, word)[..16 - n]
    ensures sreg[15] == word[dlen - n]
  {
    assert sreg[15] == Justified(dlen, word)[15 - n];
  }

  lemma LineTakes(line: Bits, word: Reg16, lo: nat, hi: nat, n: nat, now: Bits)
    requires lo < hi <= 16 && n < |line| && now == word[lo + 1..hi] + line[..|line| - n]
    ensures ShiftReg.Up(now, word[lo]) == word[lo..hi] + line[..|line| - n - 1]
  {
    assert word[lo..hi] == [word[lo]] + word[lo + 1..hi];
  }

  lemma MasterTakes(line: Bits, j: Reg16, n: nat, now: Reg16)
    requires n < 16 <= |line| && now == line[|line| - n..] + j[..16 - n]
    ensures ShiftReg.Up(now, line[|line| - n - 1]) == line[|line| - n - 1..] + j[..15 - n]
  {
    assert line[|line| - n - 1..] == [line[|line| - n - 1]] + line[|line| - n..];
    assert now[..15] == line[|line| - n..] + j[..15 - n];
  }

  lemma {:induction false} TransferShifts(dlen: nat, c: Chain, word: Reg16, n: nat)
    requires dlen <= 13 && n <= dlen + 1 && c.slaves != []
    ensures Shifted(dlen, Line(c.slaves), word, n, Transfer(dlen, c, word, n))
  {
    if n > 0 {
      TransferShifts(dlen, c, word, n - 1);
      CounterCounts(dlen, c, word, n - 1);
      ShiftOne(dlen, Line(c.slaves), word, n - 1, Transfer(dlen, c, word, n - 1));
    }
  }

  /** A whole transfer: the master receives the oldest dlen + 1 bits of the line, and the word it
      loaded goes in at the other end. */
  lemma TransferExchanges(dlen: nat, c: Chain, word: Reg16, n: nat)
    requires dlen <= 13 && n > dlen && c.slaves != []
    ensures var c', line, len := Transfer(dlen, c, word, n), Line(c.slaves), dlen + 1;
      Received(dlen, c'.m) == line[|line| - len..] && Line(c'.slaves) == word[..len] + line[..|line| - len]
  {
    Stopped(dlen, c, word, n);
    TransferShifts(dlen, c, word, dlen + 1);
  }

  /** len * j. */
  function Times(len: nat, j: nat): (r: nat)
    ensures j > 0 ==> r >= len
  {
    if j == 0 then 0 else len + Times(len, j - 1)
  }

  /** The chain after one transfer for each word, n clocks each. */
  function After(dlen: nat, c: Chain, words: seq<Reg16>, n: nat): (r: Chain)
    requires dlen < 16
    ensures |r.slaves| == |c.slaves|
  {
    if words == [] then c else Transfer(dlen, After(dlen, c, words[..|words| - 1], n), words[|words| - 1], n)
  }

  lemma {:induction false} LineLength(slaves: seq<Reg16>)
    ensures |Line(slaves)| == Times(16, |slaves|)
  {
    if slaves != [] {
      LineLength(slaves[1..]);
    }
  }

  lemma SlavesStay(dlen: nat, c: Chain, words: seq<Reg16>, n: nat)
    requires dlen < 16
    ensures |Line(After(dlen, c, words, n).slaves)| == Times(16, |c.slaves|)
  {
    LineLength(After(dlen, c, words, n).slaves);
  }

  /** What was in place lo moves up by the length of what came in. */
  lemma Later(front: Bits, line: Bits, lo: nat, len: nat)
    requires |front| == len && lo + len + len <= |line|
    ensures (front + line[..|line| - len])[lo + len..lo + len + len] == line[lo..lo + len]
  {
  }

  /** The line after a transfer. */
  ghost predicate Pushed(line: Bits, line': Bits, front: Bits) {
    |front| <= |line| && line' == front + line[..|line| - |front|]
  }

  lemma TransferPushes(dlen: nat, c: Chain, word: Reg16, n: nat)
    requires dlen <= 13 && n > dlen && c.slaves != []
    ensures Pushed(Line(c.slaves), Line(Transfer(dlen, c, word, n).slaves), word[..dlen + 1])
  {
    TransferExchanges(dlen, c, word, n);
  }

  /** It puts the word in front and moves every block up. */
  lemma FrontBlock(line: Bits, line': Bits, front: Bits)
    requires Pushed(line, line', front)
    ensures line'[..|front|] == front
  {
  }

  lemma BlockMoves(line: Bits, line': Bits, front: Bits, lo: nat, hi: nat)
    requires Pushed(line, line', front) && hi == lo + |front| && hi + |front| <= |line|
    ensures line'[hi..hi + |front|] == line[lo..hi]
  {
    Later(front, line, lo, |front|);
  }

  /** Block j of the line. */
  ghost predicate HasBlock(line: Bits, len: nat, j: nat, block: Bits) {
    Times(len, j + 1) <= |line| && line[Times(len, j)..Times(len, j + 1)] == block
  }

  lemma BlockStep(line: Bits, line': Bits, front: Bits, j: nat, block: Bits)
    requires Pushed(line, line', front) && |line'| == |line| && Times(|front|, j + 1) <= |line|
    requires j > 0 ==> HasBlock(line, |front|, j - 1, block)
    ensures HasBlock(line', |front|, j, if j == 0 then front else block)
  {
    if j == 0 {
      FrontBlock(line, line', front);
    } else {
      BlockMoves(line, line', front, Times(|front|, j - 1), Times(|front|, j));
    }
  }

  /** lines are the contents of the chain before each transfer and after the last. */
  ghost predicate Pushes(lines: seq<Bits>, words: seq<Reg16>, len: nat)
    requires len <= 16
  {
    |lines| == |words| + 1 && forall t :: 0 <= t < |words| ==> PushedAt(lines, words, len, t)
  }

  ghost predicate PushedAt(lines: seq<Bits>, words: seq<Reg16>, len: nat, t: nat)
    requires len <= 16 && t < |words| && |lines| == |words| + 1
  {
    Pushed(lines[t], lines[t + 1], words[t][..len]) && |lines[t + 1]| == |lines[t]|
  }

  /** After t transfers block j holds the word sent j transfers before the last one. */
  lemma {:induction false} Blocks(lines: seq<Bits>, words: seq<Reg16>, len: nat, t: nat, j: nat)
    requires 0 < len <= 16 && Pushes(lines, words, len) && j < t <= |words| && Times(len, j + 1) <= |lines[t]|
    ensures HasBlock(lines[t], len, j, words[t - 1 - j][..len])
  {
    assert PushedAt(lines, words, len, t - 1);
    if j > 0 {
      Blocks(lines, words, len, t - 1, j - 1);
    }
    BlockStep(lines[t - 1], lines[t], words[t - 1][..len], j, words[t - 1 - j][..len]);
  }

  function LinesOf(dlen: nat, c: Chain, words: seq<Reg16>, n: nat): (lines: seq<Bits>)
    requires dlen < 16
    ensures |lines| == |words| + 1
    ensures forall t :: 0 <= t <= |words| ==> lines[t] == Line(After(dlen, c, words[..t], n).slaves)
  {
    seq(|words| + 1, t requires 0 <= t <= |words| => Line(After(dlen, c, words[..t], n).slaves))
  }

  lemma AfterOneMore(dlen: nat, c: Chain, words: seq<Reg16>, n: nat, t: nat)
    requires dlen < 16 && t < |words|
    ensures After(dlen, c, words[..t + 1], n) == Transfer(dlen, After(dlen, c, words[..t], n), words[t], n)
  {
    assert words[..t + 1][..t] == words[..t];
  }

  lemma ChainPushes(dlen: nat, c: Chain, words: seq<Reg16>, n: nat)
    requires dlen <= 13 && n > dlen && c.slaves != []
    ensures Pushes(LinesOf(dlen, c, words, n), words, dlen + 1)
  {
    var lines, len := LinesOf(dlen, c, words, n), dlen + 1;
    forall t | 0 <= t < |words| ensures PushedAt(lines, words, len, t) {
      AfterOneMore(dlen, c, words, n, t);
      TransferPushes(dlen, After(dlen, c, words[..t], n), words[t], n);
      SlavesStay(dlen, c, words[..t], n);
      SlavesStay(dlen, c, words[..t + 1], n);
    }
  }

  lemma LastBlock(line: Bits, len: nat, s: nat, block: Bits)
    requires s > 0 && |line| == Times(len, s) && HasBlock(line, len, s - 1, block)
    ensures len <= |line| && line[|line| - len..] == block
  {
  }

  /** The delay line: when 16 bits per slave make s words, the master receives in every transfer
      the word it loaded s transfers earlier, reduced to dlen + 1 bits. */
  lemma DaisyChain(dlen: nat, c: Chain, words: seq<Reg16>, word: Reg16, n: nat, s: nat)
    requires dlen <= 13 && n > dlen && 0 < s <= |words|
    requires c.slaves != [] && Times(dlen + 1, s) == Times(16, |c.slaves|)
    ensures Received(dlen, Transfer(dlen, After(dlen, c, words, n), word, n).m) == words[|words| - s][..dlen + 1]
  {
    var c1 := After(dlen, c, words, n);
    assert words[..|words|] == words;
    SlavesStay(dlen, c, words, n);
    ChainPushes(dlen, c, words, n);
    Blocks(LinesOf(dlen, c, words, n), words, dlen + 1, |words|, s - 1);
    LastBlock(Line(c1.slaves), dlen + 1, s, words[|words| - s][..dlen + 1]);
    TransferExchanges(dlen, c1, word, n);
  }

  // ----- loopback

  /** One SPI clock in loopback mode. */
  function LoopClock(dlen: nat, m: Master): Master {
    if m.sregEn then Low(dlen, Edge(dlen, true, m, false)) else m
  }

  function Looped(dlen: nat, m: Master, word: Reg16, n: nat): Master
    requires dlen < 16
  {
    if n == 0 then Load(dlen, m, word) else LoopClock(dlen, Looped(dlen, m, word, n - 1))
  }

  /** n clocks into a transfer the register has turned by n places. */
  ghost predicate Turned(dlen: nat, j: Reg16, n: nat, m: Master)
    requires n <= 16
  {
    m.counter == n && (m.sregEn <==> n <= dlen) && m.sreg == j[16 - n..] + j[..16 - n]
  }

  lemma TurnOne(dlen: nat, j: Reg16, n: nat, m: Master)
    requires dlen <= 13 && n <= dlen && Turned(dlen, j, n, m)
    ensures Turned(dlen, j, n + 1, LoopClock(dlen, m))
  {
    RotateOne(j, n, m.sreg);
  }

  lemma {:induction false} LoopRotates(dlen: nat, m: Master, word: Reg16, n: nat)
    requires dlen <= 13 && n <= dlen + 1
    ensures Turned(dlen, Justified(dlen, word), n, Looped(dlen, m, word, n))
  {
    var j := Justified(dlen, word);
    if n > 0 {
      LoopRotates(dlen, m, word, n - 1);
      TurnOne(dlen, j, n - 1, Looped(dlen, m, word, n - 1));
    } else {
      assert j[16..] + j[..16] == j;
    }
  }

  lemma RotateOne(j: Reg16, n: nat, now: Reg16)
    requires n < 16 && now == j[16 - n..] + j[..16 - n]
    ensures ShiftReg.Up(now, now[15]) == j[15 - n..] + j[..15 - n]
  {
    assert now[15] == j[15 - n];
    assert j[15 - n..] == [j[15 - n]] + j[16 - n..];
    assert now[..15] == j[16 - n..] + j[..15 - n];
  }

  /** In loopback the master reads back the word it has just sent. */
  lemma LoopbackReads(dlen: nat, m: Master, word: Reg16)
    requires dlen <= 13
    ensures Received(dlen, Looped(dlen, m, word, dlen + 1)) == word[..dlen + 1]
  {
    LoopRotates(dlen, m, word, dlen + 1);
  }

  // ----- master and bus as objects

  class SpiMaster {
    const loopback: bool
    var dlen: nat
    var sreg: Reg16
    var mosBuf: bool
    var counter: nat
    var sregEn: bool

    ghost predicate Valid()
      reads this
    {
      dlen < 16
    }

    function Value(): Master
      reads this
    {
      Master(sreg, mosBuf, counter, sregEn)
    }

    constructor (dlen: nat, loopback: bool)
      requires dlen < 16
      ensures Valid() && this.dlen == dlen && this.loopback == loopback && !sregEn
    {
      this.dlen, this.loopback := dlen, loopback;
      sreg, mosBuf, counter, sregEn := Rep(16, false), false, 0, false;
    }

    method WriteData(pwdata: Reg16)
      requires Valid()
      modifies this
      ensures Valid() && dlen == old(dlen) && Value() == Load(dlen, old(Value()), pwdata)
    {
      mosBuf := sreg[15];
      sreg := Rep(15 - dlen, false) + pwdata[..dlen + 1];
      counter := 0;
      sregEn := true;
    }

    method ShiftClock(miso: bool)
      requires Valid()
      modifies this
      ensures Valid() && dlen == old(dlen) && Value() == Edge(dlen, loopback, old(Value()), miso)
    {
      var somi := if loopback then sreg[15] else miso;
      mosBuf := sreg[15];
      if sregEn {
        sreg := ShiftReg.Up(sreg, somi);
      }
      var nextCount := if counter >= 15 then 0 else counter + 1;
      if nextCount == dlen + 2 {
        counter := 0;
      } else if sregEn {
        counter := nextCount;
      }
    }

    method LowPhase()
      requires Valid()
      modifies this`sregEn
      ensures Valid() && Value() == Low(dlen, old(Value()))
    {
      if NextCount(counter) == dlen + 2 {
        sregEn := false;
      }
    }

    /** What a read of SPIRXBUF shows. */
    method ReadBuffer() returns (word: Bits)
      requires Valid()
      ensures word == Received(dlen, Value())
    {
      word := sreg[..dlen + 1];
    }
  }

  lemma {:induction false} SlavesEdgeAt(slaves: seq<Reg16>, din: bool, j: nat)
    requires j < |slaves|
    ensures SlavesEdge(slaves, din)[j] == ShiftReg.Up(slaves[j], if j == 0 then din else slaves[j - 1][15])
  {
    if j > 0 {
      SlavesEdgeAt(slaves[1..], slaves[0][15], j - 1);
    }
  }

  /** A master and the slaves behind it, updated in place. */
  class Bus {
    const master: SpiMaster
    const slaves: array<Reg16>

    ghost predicate Valid()
      reads this, master
    {
      master.Valid() && !master.loopback && slaves.Length > 0
    }

    ghost function Value(): Chain
      reads this, master, slaves
    {
      Chain(master.Value(), slaves[..])
    }

    /** The slaves' registers end to end. */
    ghost function Contents(): (line: Bits)
      requires Valid()
      reads this, master, slaves
      ensures |line| >= 16
    {
      assert slaves[..] != [];
      Line(slaves[..])
    }

    constructor (dlen: nat, n: nat)
      requires dlen < 16 && n > 0
      ensures Valid() && master.dlen == dlen && slaves.Length == n && fresh(master) && fresh(slaves)
    {
      master := new SpiMaster(dlen, false);
      slaves := new Reg16[n](_ => Rep(16, false));
    }

    /** The shift edge of the slaves, all from the values before it. */
    method SlavesClock(din: bool)
      requires Valid()
      modifies slaves
      ensures slaves[..] == SlavesEdge(old(slaves[..]), din)
    {
      ghost var was := slaves[..];
      var j := slaves.Length;
      while j > 0
        invariant 0 <= j <= slaves.Length == |was|
        invariant forall i :: 0 <= i < j ==> slaves[i] == was[i]
        invariant forall i :: j <= i < slaves.Length ==> slaves[i] == SlavesEdge(was, din)[i]
      {
        j := j - 1;
        SlavesEdgeAt(was, din, j);
        slaves[j] := ShiftReg.Up(slaves[j], if j == 0 then din else slaves[j - 1][15]);
      }
    }

    /** One SPI clock while the master is shifting. */
    method ClockOnce()
      requires Valid() && master.sregEn
      modifies master, slaves
      ensures Valid() && master.dlen == old(master.dlen) && Value() == Clock(master.dlen, old(Value()))
    {
      master.ShiftClock(slaves[slaves.Length - 1][15]);
      SlavesClock(master.mosBuf);
      master.LowPhase();
    }

    /** Load, then SPI clocks until the master has switched itself off.  With dlen beyond 13 the
        loop would not end; see TransferEnds. */
    method Shift(word: Reg16) returns (ghost n: nat)
      requires Valid() && master.dlen <= 13
      modifies master, slaves
      ensures Valid() && master.dlen == old(master.dlen) && !master.sregEn
      ensures n > master.dlen && Value() == Transfer(master.dlen, old(Value()), word, n)
    {
      ghost var c := Value();
      n := 0;
      master.WriteData(word);
      while master.sregEn
        invariant Valid() && master.dlen == old(master.dlen) && n <= master.dlen + 1
        invariant Value() == Transfer(master.dlen, c, word, n)
        decreases master.dlen + 1 - n
      {
        StillShifting(master.dlen, c, word, n);
        ClockOnce();
        n := n + 1;
      }
      StillShifting(master.dlen, c, word, n);
    }

    /** A whole transfer: the master gets the oldest dlen + 1 bits of the chain for the low bits of
        its word, which enter the chain at the other end. */
    method TransferWord(word: Reg16) returns (received: Bits)
      requires Valid() && master.dlen <= 13
      modifies master, slaves
      ensures Valid() && master.dlen == old(master.dlen)
      ensures var line, len := old(Contents()), master.dlen + 1;
        received == line[|line| - len..] && Contents() == word[..len] + line[..|line| - len]
    {
      ghost var c := Value();
      ghost var n := Shift(word);
      TransferExchanges(master.dlen, c, word, n);
      received := master.ReadBuffer();
    }
  }
}
