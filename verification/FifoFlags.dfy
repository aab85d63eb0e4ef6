/** Two ways to know whether the FIFO is empty or full (modules/fifo.v:89-124): the item counter
    that is used, and the flag of the alternative kept in a comment.  They agree on every run. */
module FifoFlags {
  import opened Bits
  import opened Fifo
  import Queue

  datatype Counting = Counting(w: nat, r: nat, count: int)
  datatype Flagged = Flagged(w: nat, r: nat, pushed: bool)

  predicate CountEmpty(s: Counting) { s.count == 0 }
  predicate CountFull(n: nat, s: Counting) { s.count >= n }

  /** Pointers met without a push, or with one. */
  predicate FlagEmpty(s: Flagged) { s.w == s.r && !s.pushed }
  predicate FlagFull(s: Flagged) { s.w == s.r && s.pushed }

  function CountStep(n: nat, s: Counting, c: Ctl): Counting {
    var empty, full := CountEmpty(s), CountFull(n, s);
    var wen, ren := c.push && (!full || c.pull), c.pull && !empty;
    if c.res then Counting(0, 0, 0)
    else Counting(if wen then Inc(n, s.w) else s.w, if ren then Inc(n, s.r) else s.r,
                  CountNext(n, s.count, CountAdd(n, c.push, c.pull, empty, full)))
  }

  function FlagStep(n: nat, s: Flagged, c: Ctl): Flagged {
    var empty, full := FlagEmpty(s), FlagFull(s);
    var wen, ren := c.push && (!full || c.pull), c.pull && !empty;
    if c.res then Flagged(0, 0, false)
    else Flagged(if wen then Inc(n, s.w) else s.w, if ren then Inc(n, s.r) else s.r,
                 if wen || (c.push && c.pull) then true else if ren then false else s.pushed)
  }

  function CountRun(n: nat, ins: seq<Ctl>): Counting {
    if ins == [] then Counting(0, 0, 0) else CountStep(n, CountRun(n, ins[..|ins| - 1]), ins[|ins| - 1])
  }

  function FlagRun(n: nat, ins: seq<Ctl>): Flagged {
    if ins == [] then Flagged(0, 0, false) else FlagStep(n, FlagRun(n, ins[..|ins| - 1]), ins[|ins| - 1])
  }

  /** The queue of the scoreboard over the same inputs; only its length matters here. */
  function QueueRun(n: nat, ins: seq<Ctl>): seq<bool> {
    if ins == [] then []
    else
      var q, c := QueueRun(n, ins[..|ins| - 1]), ins[|ins| - 1];
      if c.res then [] else Queue.Step(q, n, c.push, c.pull, true)
  }

  ghost predicate Agree(n: nat, s: Counting, f: Flagged, q: seq<bool>) {
    && s.w == f.w < n && s.r == f.r < n && 0 <= s.count == |q| <= n
    && s.w == Tail(n, s.r, s.count)
    && (s.count == 0 ==> !f.pushed) && (s.count == n ==> f.pushed)
  }

  lemma AgreeStep(n: nat, s: Counting, f: Flagged, q: seq<bool>, c: Ctl)
    requires n >= 2 && Agree(n, s, f, q) && !c.res
    ensures Agree(n, CountStep(n, s, c), FlagStep(n, f, c), Queue.Step(q, n, c.push, c.pull, true))
  {
    CountIs(n, s.count, c.push, c.pull);
    Gated(n, q, c.push, c.pull, true);
    PointersMove(n, s.r, s.count, c.push && (!CountFull(n, s) || c.pull), c.pull && !CountEmpty(s));
  }

  lemma {:induction false} RunsAgree(n: nat, ins: seq<Ctl>)
    requires n >= 2
    ensures Agree(n, CountRun(n, ins), FlagRun(n, ins), QueueRun(n, ins))
  {
    if ins != [] && !ins[|ins| - 1].res {
      var before := ins[..|ins| - 1];
      RunsAgree(n, before);
      AgreeStep(n, CountRun(n, before), FlagRun(n, before), QueueRun(n, before), ins[|ins| - 1]);
    }
  }

  /** On every run of pushes, pulls and resets, at every depth 2^a, both forms report empty
      exactly when the queue is empty and full exactly when it holds 2^a items, and they move
      the pointers alike. */
  lemma FlagsAgree(a: nat, ins: seq<Ctl>)
    requires a >= 1
    ensures var n := Pow2(a);
      var s, f, q := CountRun(n, ins), FlagRun(n, ins), QueueRun(n, ins);
      && (CountEmpty(s) <==> FlagEmpty(f)) && (FlagEmpty(f) <==> q == [])
      && (CountFull(n, s) <==> FlagFull(f)) && (FlagFull(f) <==> |q| == n)
      && s.w == f.w && s.r == f.r
  {
    Pow2Mono(1, a);
    RunsAgree(Pow2(a), ins);
  }
}
