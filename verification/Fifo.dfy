/** The FIFO (modules/fifo.v): a circular buffer with look-ahead pointers and an item counter,
    and the alternative flags kept in a comment there. */
module Fifo {
  import opened Bits
  import Queue

  /** One clock of inputs, without the data. */
  datatype Ctl = Ctl(res: bool, push: bool, pull: bool)

  /** Pointer increment modulo the depth. */
  function Inc(n: nat, p: nat): nat { if p + 1 == n then 0 else p + 1 }

  /** The register of ADDR_WIDTH+1 bits that the counter adds: -1, 1 or 0. */
  function CountAdd(n: nat, push: bool, pull: bool, empty: bool, full: bool): int {
    if pull && !push && !empty then 2 * n - 1
    else if !pull && push && !full then 1
    else if pull && push && empty && !full then 1
    else 0
  }

  function CountNext(n: nat, count: int, add: int): int {
    if count + add >= 2 * n then count + add - 2 * n else count + add
  }

  /** The count items that start at r, going round the end of the buffer. */
  function View<T>(mem: seq<T>, r: nat, count: nat): (q: seq<T>)
    requires r < |mem| && count <= |mem|
    ensures |q| == count
  {
    if r + count <= |mem| then mem[r..r + count] else mem[r..] + mem[..r + count - |mem|]
  }

  /** Where the item after the last one goes. */
  function Tail(n: nat, r: nat, count: nat): int {
    if r + count < n then r + count else r + count - n
  }

  lemma ViewPush<T>(mem: seq<T>, r: nat, count: nat, x: T)
    requires r < |mem| && count < |mem|
    ensures View(mem[Tail(|mem|, r, count) := x], r, count + 1) == View(mem, r, count) + [x]
  {
  }

  lemma ViewPull<T>(mem: seq<T>, r: nat, count: nat)
    requires r < |mem| && 0 < count <= |mem|
    ensures View(mem, Inc(|mem|, r), count - 1) == View(mem, r, count)[1..]
    ensures View(mem, r, count)[0] == mem[r]
    ensures Tail(|mem|, Inc(|mem|, r), count - 1) == Tail(|mem|, r, count)
  {
  }

  /** A pull, then a push. */
  lemma Moves<T>(mem: seq<T>, r: nat, count: nat, push: bool, pull: bool, x: T, mem': seq<T>)
    requires |mem| >= 1 && r < |mem| && count <= |mem|
    requires pull ==> count > 0
    requires push ==> pull || count < |mem|
    requires mem' == if push then mem[Tail(|mem|, r, count) := x] else mem
    ensures View(mem', if pull then Inc(|mem|, r) else r, count + B2N(push) - B2N(pull))
         == Queue.Step(View(mem, r, count), |mem|, push, pull, x)
  {
    if pull {
      ViewPull(mem, r, count);
      if push {
        ViewPush(mem, Inc(|mem|, r), count - 1, x);
      }
    } else if push {
      ViewPush(mem, r, count, x);
    }
  }

  /** The write and read enables let through exactly what the queue lets through. */
  lemma Gated<T>(n: nat, q: seq<T>, push: bool, pull: bool, x: T)
    requires n >= 2 && |q| <= n
    ensures Queue.Step(q, n, push, pull, x) == Queue.Step(q, n, push && (|q| < n || pull), pull && q != [], x)
  {
  }

  /** The counter follows the enables. */
  lemma CountIs(n: nat, count: nat, push: bool, pull: bool)
    requires n >= 2 && count <= n
    ensures CountNext(n, count, CountAdd(n, push, pull, count == 0, count >= n))
         == count + B2N(push && (count < n || pull)) - B2N(pull && count > 0)
  {
  }

  /** The write pointer stays where the item after the last one goes. */
  lemma PointersMove(n: nat, r: nat, count: nat, push: bool, pull: bool)
    requires r < n && count <= n && n >= 2
    requires (pull ==> count > 0) && (push ==> pull || count < n)
    ensures (if push then Inc(n, Tail(n, r, count)) else Tail(n, r, count))
         == Tail(n, if pull then Inc(n, r) else r, count + B2N(push) - B2N(pull))
  {
  }

  /** All of this for the raw push and pull: buffer, pointers and count before and after. */
  lemma Turns<T>(mem: seq<T>, r: nat, count: nat, push: bool, pull: bool, x: T,
                 mem': seq<T>, w': int, r': nat, count': int)
    requires |mem| >= 2 && r < |mem| && count <= |mem|
    requires var n, wen, ren := |mem|, push && (count < |mem| || pull), pull && count > 0;
      && mem' == (if wen then mem[Tail(n, r, count) := x] else mem)
      && w' == (if wen then Inc(n, Tail(n, r, count)) else Tail(n, r, count))
      && r' == (if ren then Inc(n, r) else r)
      && count' == count + B2N(wen) - B2N(ren)
    ensures 0 <= count' <= |mem| && w' == Tail(|mem|, r', count')
    ensures View(mem', r', count') == Queue.Step(View(mem, r, count), |mem|, push, pull, x)
  {
    var n, wen, ren := |mem|, push && (count < |mem| || pull), pull && count > 0;
    PointersMove(n, r, count, wen, ren);
    Moves(mem, r, count, wen, ren, x, mem');
    Gated(n, View(mem, r, count), push, pull, x);
  }

  class Fifo<T(0)> {
    const addrWidth: nat
    const n: nat
    const mem: array<T>
    var wPtr: nat
    var rPtr: nat
    var nextW: nat
    var nextR: nat
    var count: nat

    ghost predicate Valid()
      reads this
    {
      && addrWidth >= 1 && n == Pow2(addrWidth) && n >= 2 && mem.Length == n
      && wPtr < n && rPtr < n && nextW == Inc(n, wPtr) && nextR == Inc(n, rPtr)
      && count <= n
      && wPtr == Tail(n, rPtr, count)
    }

    /** The items, oldest first. */
    ghost function Contents(): (q: seq<T>)
      requires Valid()
      reads this, mem
      ensures |q| == count
    {
      View(mem[..], rPtr, count)
    }

    /** The counter is zero. */
    predicate Empty()
      requires Valid()
      reads this, mem
      ensures Empty() <==> Contents() == []
    {
      count == 0
    }

    /** The top bit of the counter is set. */
    predicate Full()
      requires Valid()
      reads this, mem
      ensures Full() <==> |Contents()| == n
    {
      count >= n
    }

    /** Synchronous reset leaves the buffer as it is. */
    constructor (addrWidth: nat)
      requires addrWidth >= 1
      ensures Valid() && fresh(mem) && this.addrWidth == addrWidth && Contents() == []
    {
      this.addrWidth := addrWidth;
      n := Pow2(addrWidth);
      mem := new T[Pow2(addrWidth)];
      wPtr, rPtr, nextW, nextR, count := 0, 0, 1, 1, 0;
      new;
      Pow2Mono(1, addrWidth);
    }

    /** First-word fall-through: the oldest item is on the output before it is pulled. */
    method Dout() returns (dout: T)
      requires Valid()
      ensures !Empty() ==> dout == Contents()[0]
    {
      if count > 0 {
        ViewPull(mem[..], rPtr, count);
      }
      dout := mem[rPtr];
    }

    /** One rising edge.  The contents follow the queue of the scoreboard: a pull that finds the
        FIFO empty does nothing, a push that finds it full does nothing unless a pull makes
        room in the same clock. */
    method Clock(res: bool, push: bool, pull: bool, din: T)
      requires Valid()
      modifies this, mem
      ensures Valid()
      ensures Contents() == if res then [] else Queue.Step(old(Contents()), n, push, pull, din)
    {
      ghost var buf, r, c := mem[..], rPtr, count;
      var empty, full := Empty(), Full();
      var wen, ren := push && (!full || pull), pull && !empty;
      if !res && wen {
        mem[wPtr] := din;
      }
      WritePointers(res, wen);
      ReadPointers(res, ren);
      CountItems(res, push, pull, empty, full);
      if !res {
        Turns(buf, r, c, push, pull, din, mem[..], wPtr, rPtr, count);
      }
    }

    method CountItems(res: bool, push: bool, pull: bool, empty: bool, full: bool)
      requires count <= n && n >= 2 && empty == (count == 0) && full == (count >= n)
      modifies this`count
      ensures count == if res then 0 else old(count) + B2N(push && (!full || pull)) - B2N(pull && !empty)
    {
      CountIs(n, count, push, pull);
      count := if res then 0 else CountNext(n, count, CountAdd(n, push, pull, empty, full));
    }

    method WritePointers(res: bool, wen: bool)
      requires wPtr < n && nextW == Inc(n, wPtr) && n >= 2
      modifies this`wPtr, this`nextW
      ensures wPtr < n && nextW == Inc(n, wPtr)
      ensures wPtr == if res then 0 else if wen then Inc(n, old(wPtr)) else old(wPtr)
    {
      if res {
        wPtr, nextW := 0, 1;
      } else if wen {
        wPtr, nextW := nextW, Inc(n, nextW);
      }
    }

    method ReadPointers(res: bool, ren: bool)
      requires rPtr < n && nextR == Inc(n, rPtr) && n >= 2
      modifies this`rPtr, this`nextR
      ensures rPtr < n && nextR == Inc(n, rPtr)
      ensures rPtr == if res then 0 else if ren then Inc(n, old(rPtr)) else old(rPtr)
    {
      if res {
        rPtr, nextR := 0, 1;
      } else if ren {
        rPtr, nextR := nextR, Inc(n, nextR);
      }
    }
  }
}
