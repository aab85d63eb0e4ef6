/** The bounded queue a FIFO stands for: within one clock first the pull, then the push
    (tb_uvm_fifo/scoreboard.sv:64-74). */
module Queue {

  function Step<T>(q: seq<T>, depth: nat, push: bool, pull: bool, din: T): seq<T> {
    var rest := if pull && q != [] then q[1..] else q;
    if push && |rest| < depth then rest + [din] else rest
  }

  /** q is what is left of the log of what went in. */
  ghost predicate IsTail<T>(q: seq<T>, log: seq<T>) {
    |q| <= |log| && log[|log| - |q|..] == q
  }

  /** A log of what went in, whose tail is the queue, stays one.  A pull on empty takes nothing,
      and a push that finds no room, even after the pull, is not logged. */
  lemma TailOfLog<T>(log: seq<T>, q: seq<T>, depth: nat, push: bool, pull: bool, din: T)
    requires IsTail(q, log)
    ensures var pulled := pull && q != [];
      var pushed := push && |q| - (if pulled then 1 else 0) < depth;
      var log', q' := if pushed then log + [din] else log, Step(q, depth, push, pull, din);
      && |q'| == |q| + (if pushed then 1 else 0) - (if pulled then 1 else 0)
      && IsTail(q', log')
  {
    var rest := if pull && q != [] then q[1..] else q;
    assert log[|log| - |rest|..] == rest;
    assert (log + [din])[|log| - |rest|..] == rest + [din];
  }

  /** What went in is what came out followed by what is still queued. */
  lemma Conserved<T>(pushed: seq<T>, read: seq<T>, q: seq<T>, depth: nat, push: bool, pull: bool, din: T)
    requires pushed == read + q && (push ==> |q| < depth)
    ensures var q' := Step(q, depth, push, pull, din);
      (if push then pushed + [din] else pushed) == (if pull && q != [] then read + [q[0]] else read) + q'
    ensures |q| <= depth ==> |Step(q, depth, push, pull, din)| <= depth
  {
    if pull && q != [] {
      assert q == [q[0]] + q[1..];
    }
  }
}
