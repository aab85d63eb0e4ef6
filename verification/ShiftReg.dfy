/** Shift registers of any length (modules/shift_reg.v), gate-flow form. */
module ShiftReg {
  import opened Bits

  /** One shift towards bit 0, as in shift_reg. */
  function Down(q: Bits, din: bool): (r: Bits)
    requires q != []
    ensures |r| == |q|
  {
    q[1..] + [din]
  }

  /** One shift towards the most significant bit, as in shift_reg_msb. */
  function Up(q: Bits, din: bool): (r: Bits)
    requires q != []
    ensures |r| == |q|
  {
    [din] + q[..|q| - 1]
  }

  class Register {
    var dout: Bits

    constructor (n: nat)
      ensures dout == Rep(n, false)
    {
      dout := Rep(n, false);
    }

    /** shift_reg: a load wins over a shift. */
    method Clock(en: bool, din: bool, loadEn: bool, load: Bits)
      requires |load| == |dout| > 0
      modifies this
      ensures dout == if loadEn then load else if en then Down(old(dout), din) else old(dout)
    {
      var n, darr := |dout|, [];
      for i := 0 to n
        invariant |darr| == i
        invariant darr == (if loadEn then load else if en then Down(dout, din) else dout)[..i]
      {
        var d := if loadEn then load[i] else if !en then dout[i] else if i == n - 1 then din else dout[i + 1];
        darr := darr + [d];
      }
      dout := darr;
    }
  }

  class RegisterMsb {
    var dout: Bits

    constructor (n: nat)
      ensures dout == Rep(n, false)
    {
      dout := Rep(n, false);
    }

    /** shift_reg_msb. */
    method Clock(en: bool, din: bool, loadEn: bool, load: Bits)
      requires |load| == |dout| > 0
      modifies this
      ensures dout == if loadEn then load else if en then Up(old(dout), din) else old(dout)
    {
      var n, darr := |dout|, [];
      for i := 0 to n
        invariant |darr| == i
        invariant darr == (if loadEn then load else if en then Up(dout, din) else dout)[..i]
      {
        var d := if loadEn then load[i] else if !en then dout[i] else if i == 0 then din else dout[i - 1];
        darr := darr + [d];
      }
      dout := darr;
    }
  }

  // ----- whole streams

  /** The register after a stream of shifts, oldest input first. */
  function UpAll(q: Bits, ins: seq<bool>): (r: Bits)
    requires q != []
    ensures |r| == |q|
  {
    if ins == [] then q else Up(UpAll(q, ins[..|ins| - 1]), ins[|ins| - 1])
  }

  function DownAll(q: Bits, ins: seq<bool>): (r: Bits)
    requires q != []
    ensures |r| == |q|
  {
    if ins == [] then q else Down(DownAll(q, ins[..|ins| - 1]), ins[|ins| - 1])
  }

  lemma UpAt(q: Bits, din: bool, i: nat)
    requires i < |q|
    ensures Up(q, din)[i] == if i == 0 then din else q[i - 1]
  {
  }

  lemma DownAt(q: Bits, din: bool, i: nat)
    requires i < |q|
    ensures Down(q, din)[i] == if i == |q| - 1 then din else q[i + 1]
  {
  }

  /** The register is a delay line: it holds the latest inputs, newest in bit 0, above which are
      the bits it started with. */
  lemma {:induction false} UpDelays(q: Bits, ins: seq<bool>, i: nat)
    requires i < |q|
    ensures UpAll(q, ins)[i] == if i < |ins| then ins[|ins| - 1 - i] else q[i - |ins|]
  {
    if ins != [] {
      var before, last := ins[..|ins| - 1], ins[|ins| - 1];
      UpAt(UpAll(q, before), last, i);
      if i > 0 {
        UpDelays(q, before, i - 1);
      }
    }
  }

  /** The other direction is the mirror image. */
  lemma {:induction false} DownDelays(q: Bits, ins: seq<bool>, i: nat)
    requires i < |q|
    ensures DownAll(q, ins)[|q| - 1 - i] == if i < |ins| then ins[|ins| - 1 - i] else q[|q| - 1 - (i - |ins|)]
  {
    if ins != [] {
      var before, last := ins[..|ins| - 1], ins[|ins| - 1];
      DownAt(DownAll(q, before), last, |q| - 1 - i);
      if i > 0 {
        DownDelays(q, before, i - 1);
      }
    }
  }
}
