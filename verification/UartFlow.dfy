/** What the CPU gets in and out (UART/uart.sv:120-128, UART/uart_top.sv:111-164): a write is accepted exactly
    when there is room, a word is kept exactly when there is room, and reading empties the FIFO. */
module UartFlow {
  import opened UartLine
  import opened UartLoopback
  import opened UartRoundTrip
  import opened UartProgress

  /** How many entries a FIFO may hold: its depth in FIFO mode, otherwise one. */
  function Room(k: Conf): nat { if k.fifoEn then k.depth else 1 }

  // ----- one clock

  /** A byte is accepted if and only if it is written while there is room for it. */
  lemma ClkAccepts(k: Conf, s: Uart, i: ClkIn)
    requires k.depth >= 2 && |s.txq| <= k.depth
    ensures Clk(k, s, i).log.accepted
         == if i.wr && |s.txq| < Room(k) then s.log.accepted + [i.data] else s.log.accepted
  {
  }

  /** An announced word is kept if and only if there is room for it. */
  lemma ClkKept(k: Conf, s: Uart, i: ClkIn)
    requires k.depth >= 2 && |s.rxq| <= k.depth
    ensures Clk(k, s, i).log.kept == if RxReady(k, s) then s.log.kept + [|s.rxq| < Room(k)] else s.log.kept
  {
  }

  /** LSR.OE rises exactly on a word without room, and falls exactly on the clock after an LSR read, unless
      another such word comes. */
  lemma ClkOverrun(k: Conf, s: Uart, i: ClkIn)
    requires k.depth >= 2 && |s.rxq| <= k.depth
    ensures var s' := Clk(k, s, i);
      && (!s.oe && s'.oe <==> !s.oe && RxReady(k, s) && |s.rxq| >= Room(k))
      && (s.oe && !s'.oe <==> s.oe && s.postRd && !(RxReady(k, s) && |s.rxq| >= Room(k)))
      && s'.postRd == i.lsrRd
  {
  }

  /** A read takes the oldest word, if there is one. */
  lemma ClkRead(k: Conf, s: Uart, i: ClkIn)
    requires !RxReady(k, s)
    ensures var s' := Clk(k, s, i);
      if i.rd && s.rxq != [] then s'.log.read == s.log.read + s.rxq[..1] && s'.rxq == s.rxq[1..]
      else s'.log.read == s.log.read && s'.rxq == s.rxq
  {
  }

  // ----- any number of clocks

  lemma {:induction false} SelectAppend<T>(a: seq<T>, f: seq<bool>, b: seq<T>, g: seq<bool>)
    requires |a| == |f| && |b| == |g|
    ensures Select(a + b, f + g) == Select(a, f) + Select(b, g)
    decreases |b|
  {
    if b == [] {
      assert a + b == a && f + g == f;
    } else {
      var n := |b| - 1;
      SelectAppend(a, f, b[..n], g[..n]);
      assert a + b == (a + b[..n]) + [b[n]] && f + g == (f + g[..n]) + [g[n]];
      SelectOne(a + b[..n], f + g[..n], b[n], g[n]);
    }
  }

  /** The bytes written during some clocks. */
  function Written(ins: seq<ClkIn>): seq<Reg8> {
    if ins == [] then []
    else Written(ins[..|ins| - 1]) + if ins[|ins| - 1].wr then [ins[|ins| - 1].data] else []
  }

  /** For each of them, whether there was room. */
  function Rooms(k: Conf, s: Uart, ins: seq<ClkIn>): (f: seq<bool>)
    ensures |f| == |Written(ins)|
  {
    if ins == [] then []
    else
      var n := |ins| - 1;
      Rooms(k, s, ins[..n]) + if ins[n].wr then [|Clks(k, s, ins[..n]).txq| < Room(k)] else []
  }

  /** For each word announced, whether there was room. */
  function Places(k: Conf, s: Uart, ins: seq<ClkIn>): seq<bool> {
    if ins == [] then []
    else
      var n := |ins| - 1;
      var s' := Clks(k, s, ins[..n]);
      Places(k, s, ins[..n]) + if RxReady(k, s') then [|s'.rxq| < Room(k)] else []
  }

  /** One more clock, seen from any point before it. */
  lemma AcceptsMore(k: Conf, s: Uart, i: ClkIn, base: seq<Reg8>, w: seq<Reg8>, f: seq<bool>)
    requires k.depth >= 2 && |s.txq| <= k.depth && |w| == |f| && s.log.accepted == base + Select(w, f)
    ensures var w', f' := w + (if i.wr then [i.data] else []), f + (if i.wr then [|s.txq| < Room(k)] else []);
      Clk(k, s, i).log.accepted == base + Select(w', f')
  {
    ClkAccepts(k, s, i);
    if i.wr {
      SelectOne(w, f, i.data, |s.txq| < Room(k));
    } else {
      assert w + [] == w && f + [] == f;
    }
  }

  lemma {:induction false} ClksAccept(k: Conf, s: Uart, ins: seq<ClkIn>)
    requires Inv(k, s)
    ensures Clks(k, s, ins).log.accepted == s.log.accepted + Select(Written(ins), Rooms(k, s, ins))
  {
    if ins != [] {
      var n := |ins| - 1;
      var s1 := Clks(k, s, ins[..n]);
      ClksAccept(k, s, ins[..n]);
      ClksKeep(k, s, ins[..n]);
      AcceptsMore(k, s1, ins[n], s.log.accepted, Written(ins[..n]), Rooms(k, s, ins[..n]));
    }
  }

  lemma PlacesMore(k: Conf, s: Uart, i: ClkIn, base: seq<bool>, f: seq<bool>)
    requires k.depth >= 2 && |s.rxq| <= k.depth && s.log.kept == base + f
    ensures Clk(k, s, i).log.kept == base + (f + if RxReady(k, s) then [|s.rxq| < Room(k)] else [])
  {
    ClkKept(k, s, i);
  }

  lemma {:induction false} ClksPlace(k: Conf, s: Uart, ins: seq<ClkIn>)
    requires Inv(k, s)
    ensures Clks(k, s, ins).log.kept == s.log.kept + Places(k, s, ins)
  {
    if ins != [] {
      var n := |ins| - 1;
      ClksPlace(k, s, ins[..n]);
      ClksKeep(k, s, ins[..n]);
      PlacesMore(k, Clks(k, s, ins[..n]), ins[n], s.log.kept, Places(k, s, ins[..n]));
    }
  }

  // ----- whole runs

  function AllWritten(ps: seq<Period>): seq<Reg8> {
    if ps == [] then [] else AllWritten(ps[..|ps| - 1]) + Written(ps[|ps| - 1].clks)
  }

  function AllRooms(k: Conf, s: Uart, ps: seq<Period>): (f: seq<bool>)
    ensures |f| == |AllWritten(ps)|
  {
    if ps == [] then []
    else
      var p := ps[|ps| - 1];
      AllRooms(k, s, ps[..|ps| - 1]) + Rooms(k, Tick(k, Run(k, s, ps[..|ps| - 1]), p.tick), p.clks)
  }

  function AllPlaces(k: Conf, s: Uart, ps: seq<Period>): seq<bool> {
    if ps == [] then []
    else
      var p := ps[|ps| - 1];
      AllPlaces(k, s, ps[..|ps| - 1]) + Places(k, Tick(k, Run(k, s, ps[..|ps| - 1]), p.tick), p.clks)
  }

  lemma PeriodFlow(k: Conf, s: Uart, p: Period)
    requires Boundary(k, s) && Timely(k, p)
    ensures var s1 := Tick(k, s, p.tick);
      && Clks(k, s1, p.clks).log.accepted == s.log.accepted + Select(Written(p.clks), Rooms(k, s1, p.clks))
      && Clks(k, s1, p.clks).log.kept == s.log.kept + Places(k, s1, p.clks)
  {
    PeriodKeeps(k, s, p);
    ClksAccept(k, Tick(k, s, p.tick), p.clks);
    ClksPlace(k, Tick(k, s, p.tick), p.clks);
  }

  /** On every run the bytes accepted are the bytes written while there was room, in order, and a word
      announced is kept, and not an overrun, exactly if there was room for it. */
  lemma {:induction false} Flow(k: Conf, s0: Uart, ps: seq<Period>)
    requires Init(k, s0) && forall p :: p in ps ==> Timely(k, p)
    ensures Run(k, s0, ps).log.accepted == Select(AllWritten(ps), AllRooms(k, s0, ps))
    ensures Run(k, s0, ps).log.kept == AllPlaces(k, s0, ps)
  {
    if ps != [] {
      var before, p := ps[..|ps| - 1], ps[|ps| - 1];
      var s := Run(k, s0, before);
      Flow(k, s0, before);
      Reachable(k, s0, before);
      PeriodFlow(k, s, p);
      var rooms := Rooms(k, Tick(k, s, p.tick), p.clks);
      SelectAppend(AllWritten(before), AllRooms(k, s0, before), Written(p.clks), rooms);
    }
  }

  // ----- reading

  /** s with the n oldest words read out. */
  ghost predicate ReadOut(k: Conf, s: Uart, s': Uart, n: nat) {
    && Seen(k, s') && s'.tx == s.tx && s'.rx == s.rx && s'.log.kept == s.log.kept
    && n <= |s.rxq| && s'.log.read == s.log.read + s.rxq[..n] && s'.rxq == s.rxq[n..]
  }

  lemma ReadsMore(k: Conf, s: Uart, s1: Uart, n: nat, i: ClkIn)
    requires ReadOut(k, s, s1, n) && n < |s.rxq| && i.rd
    ensures ReadOut(k, s, Clk(k, s1, i), n + 1)
  {
    ClkRead(k, s1, i);
    assert s.rxq[..n] + s.rxq[n..][..1] == s.rxq[..n + 1];
  }

  /** Clocks in which the CPU reads, with no announcement pending, take everything out in order. */
  lemma {:induction false} ClksRead(k: Conf, s: Uart, ins: seq<ClkIn>)
    requires Seen(k, s) && |ins| <= |s.rxq| && forall i :: i in ins ==> i.rd
    ensures ReadOut(k, s, Clks(k, s, ins), |ins|)
  {
    if ins != [] {
      var n := |ins| - 1;
      ClksRead(k, s, ins[..n]);
      ReadsMore(k, s, Clks(k, s, ins[..n]), n, ins[n]);
    }
  }

  /** From the CPU to the CPU.  Once it stops writing, waits as long as EverythingArrives says, and then
      reads once per word still queued, it has read the clean words of all bytes accepted, in order, with
      exactly the overruns left out. */
  lemma EverythingRead(k: Conf, s0: Uart, ps: seq<Period>, quiet: seq<Period>, ins: seq<ClkIn>)
    requires Init(k, s0) && forall p :: p in ps ==> Timely(k, p)
    requires Quiet(k, quiet) && |quiet| >= k.c.T() + Frames(k.c, |Run(k, s0, ps).txq| + 1)
    requires |ins| == |Run(k, Run(k, s0, ps), quiet).rxq| && forall i :: i in ins ==> i.rd
    ensures var l := Clks(k, Run(k, Run(k, s0, ps), quiet), ins).log;
      && |l.kept| == |Run(k, s0, ps).log.accepted|
      && l.read == Select(CleanAll(k.c, Run(k, s0, ps).log.accepted), l.kept)
  {
    var s, s' := Run(k, s0, ps), Run(k, Run(k, s0, ps), quiet);
    Reachable(k, s0, ps);
    EverythingArrives(k, s0, ps, quiet);
    Countdown(k, s, quiet);
    ClksRead(k, s', ins);
    assert s'.rxq[..|ins|] == s'.rxq;
  }
}
