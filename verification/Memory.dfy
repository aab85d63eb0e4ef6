/** The byte memory (modules/memory.sv) at a data width of 32, and the two narrowing blocks at
    its port: sign_extender.sv for loads, data_handler.sv for stores. */
module Memory {
  import opened Bits
  import opened Decode

  type Byte = b: Bits | |b| == 8 witness Rep(8, false)

  /** Bytes moved for a block size: sizes wider than the bus fall back to the bus width. */
  function Bytes(size: nat): (n: nat)
    ensures 1 <= n <= 4
  {
    if size == BYTE then 1 else if size == HALF then 2 else if size == TRPL then 3 else 4
  }

  /** The byte at an address; outside the array the simulator reads unknown bits, 0 here. */
  function ByteAt(mem: seq<Byte>, a: nat): Byte { if a < |mem| then mem[a] else Rep(8, false) }

  /** {MEMX[addr+n-1], ..., MEMX[addr]}. */
  function Little(mem: seq<Byte>, addr: nat, n: nat): (r: Bits)
    ensures |r| == 8 * n
    decreases n
  {
    if n == 0 then [] else ByteAt(mem, addr) + Little(mem, addr + 1, n - 1)
  }

  /** {MEMX[addr], ..., MEMX[addr+n-1]}. */
  function Big(mem: seq<Byte>, addr: nat, n: nat): (r: Bits)
    ensures |r| == 8 * n
    decreases n
  {
    if n == 0 then [] else Big(mem, addr + 1, n - 1) + ByteAt(mem, addr)
  }

  /** The read port: the bytes of the block under zeros, or 0 beyond the array. */
  function Read(mem: seq<Byte>, addr: nat, size: nat, bigEndian: bool): Word {
    var n := Bytes(size);
    if addr > |mem| then Rep(32, false)
    else (if bigEndian then Big(mem, addr, n) else Little(mem, addr, n)) + Rep(32 - 8 * n, false)
  }

  /** Byte i of a word. */
  function Lane(data: Bits, i: nat): Byte
    requires 8 * i + 8 <= |data|
  {
    data[8 * i..8 * i + 8]
  }

  /** mem with one byte changed, if the address exists. */
  function Poke(mem: seq<Byte>, a: nat, b: Byte): (m: seq<Byte>)
    ensures |m| == |mem|
  {
    if a < |mem| then mem[a := b] else mem
  }

  /** n bytes of data written from addr up; bytes outside the array are dropped. */
  function Written(mem: seq<Byte>, addr: nat, n: nat, data: Bits): (m: seq<Byte>)
    requires |data| >= 8 * n
    ensures |m| == |mem|
  {
    if n == 0 then mem else Poke(Written(mem, addr, n - 1, data), addr + n - 1, Lane(data, n - 1))
  }

  function Write(mem: seq<Byte>, addr: nat, size: nat, data: Word): (m: seq<Byte>)
    ensures |m| == |mem|
  {
    Written(mem, addr, Bytes(size), data)
  }

  /** sign_extender. */
  function SignExtend(size: nat, zeroEx: bool, data: Word): Word {
    if zeroEx then data
    else if size == BYTE then data[..8] + Rep(24, data[7])
    else if size == HALF then data[..16] + Rep(16, data[15])
    else if size == TRPL then data[..24] + Rep(8, data[23])
    else data
  }

  /** data_handler. */
  function Narrow(size: nat, data: Word): Word {
    if size == BYTE then data[..8] + Rep(24, false)
    else if size == HALF then data[..16] + Rep(16, false)
    else if size == TRPL then data[..24] + Rep(8, false)
    else data
  }

  // ----- reading back

  /** The last byte of a block. */
  lemma {:induction false} LittleLast(mem: seq<Byte>, addr: nat, n: nat)
    requires n > 0
    ensures Little(mem, addr, n) == Little(mem, addr, n - 1) + ByteAt(mem, addr + n - 1)
    decreases n
  {
    if n > 1 {
      LittleLast(mem, addr + 1, n - 1);
      Regroup(ByteAt(mem, addr), Little(mem, addr + 1, n - 2), ByteAt(mem, addr + n - 1));
    }
  }

  lemma Regroup(a: Bits, b: Bits, c: Bits)
    ensures a + (b + c) == (a + b) + c
  {
  }

  /** A write changes the bytes of its block and no others. */
  lemma {:induction false} WrittenAt(mem: seq<Byte>, addr: nat, n: nat, data: Bits, a: nat)
    requires |data| >= 8 * n
    ensures ByteAt(Written(mem, addr, n, data), a)
         == if addr <= a < addr + n && a < |mem| then Lane(data, a - addr) else ByteAt(mem, a)
  {
    if n > 0 {
      WrittenAt(mem, addr, n - 1, data, a);
    }
  }

  lemma {:induction false} LittleIsData(mem: seq<Byte>, addr: nat, n: nat, data: Bits)
    requires |data| >= 8 * n && forall i :: 0 <= i < n ==> ByteAt(mem, addr + i) == Lane(data, i)
    ensures Little(mem, addr, n) == data[..8 * n]
  {
    if n > 0 {
      LittleIsData(mem, addr, n - 1, data);
      LittleLast(mem, addr, n);
      assert data[..8 * n] == data[..8 * (n - 1)] + Lane(data, n - 1);
    }
  }

  /** Reading a block back gives the data written to it, cut to its size; a block that does not
      overlap it reads as before. */
  lemma ReadAfterWrite(mem: seq<Byte>, addr: nat, size: nat, data: Word, addr': nat, size': nat)
    requires addr + Bytes(size) <= |mem|
    ensures Read(Write(mem, addr, size, data), addr, size, false)
         == data[..8 * Bytes(size)] + Rep(32 - 8 * Bytes(size), false)
    ensures addr' + Bytes(size') <= addr || addr + Bytes(size) <= addr' ==>
      Read(Write(mem, addr, size, data), addr', size', false) == Read(mem, addr', size', false)
  {
    var n, mem' := Bytes(size), Write(mem, addr, size, data);
    forall i | 0 <= i < n ensures ByteAt(mem', addr + i) == Lane(data, i) {
      WrittenAt(mem, addr, n, data, addr + i);
    }
    LittleIsData(mem', addr, n, data);
    if addr' + Bytes(size') <= addr || addr + n <= addr' {
      forall a | addr' <= a < addr' + Bytes(size') ensures ByteAt(mem', a) == ByteAt(mem, a) {
        WrittenAt(mem, addr, n, data, a);
      }
      SameLittle(mem, mem', addr', Bytes(size'));
    }
  }

  lemma {:induction false} SameLittle(mem: seq<Byte>, mem': seq<Byte>, addr: nat, n: nat)
    requires forall a :: addr <= a < addr + n ==> ByteAt(mem', a) == ByteAt(mem, a)
    ensures Little(mem', addr, n) == Little(mem, addr, n)
    decreases n
  {
    if n > 0 {
      SameLittle(mem, mem', addr + 1, n - 1);
    }
  }

  /** The little-endian memory as an object: a byte array written in place. */
  class Ram {
    const cells: array<Byte>

    constructor (depth: nat)
      ensures fresh(cells) && cells.Length == depth
    {
      cells := new Byte[depth](_ => Rep(8, false));
    }

    /** One write clock: byte 0 always, the others as the block size asks. */
    method WriteClock(wrEn: bool, addr: nat, size: nat, data: Word)
      modifies cells
      ensures cells[..] == if wrEn then Write(old(cells[..]), addr, size, data) else old(cells[..])
    {
      if wrEn {
        var n := Bytes(size);
        ghost var before := cells[..];
        for i := 0 to n
          invariant cells[..] == Written(before, addr, i, data)
        {
          if addr + i < cells.Length {
            cells[addr + i] := Lane(data, i);
          }
        }
      }
    }

    /** The read port collects the bytes of the block. */
    method ReadPort(addr: nat, size: nat) returns (word: Word)
      ensures word == Read(cells[..], addr, size, false)
    {
      var low := [];
      for i := 0 to Bytes(size)
        invariant low == Little(cells[..], addr, i)
      {
        LittleLast(cells[..], addr, i + 1);
        low := low + if addr + i < cells.Length then cells[addr + i] else Rep(8, false);
      }
      word := if addr > cells.Length then Rep(32, false) else low + Rep(32 - |low|, false);
    }
  }
}
