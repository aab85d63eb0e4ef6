/** Data accesses beyond the data memory (RISCV_SingleCycle/riscv.sv:43, riscv_core.sv:155-190): loads come
    from the data bus, stores leave the memory alone. */
module RvBus {
  import opened Bits
  import opened Decode
  import opened RvValues
  import opened RvRefine
  import Memory
  import C = Core
  import Isa
  import RvCsr
  import RvWords

  // ----- sizes, also those RV32I does not use

  /** The size code of a load or store is its funct3, but for the unsigned loads. */
  function SizeCode(f3: nat): nat {
    if f3 == 4 then 0 else if f3 == 5 then 1 else if f3 == 6 then 2 else f3
  }

  /** How many bytes a size code stands for: 8-byte blocks are cut to a word. */
  function SizeBytes(size: nat): nat {
    if size == 0 then 1 else if size == 1 then 2 else if size == 7 then 3 else 4
  }

  lemma TransferBits(ins: Word)
    requires Opcode(ins) == 0x03 || Opcode(ins) == 0x23
    ensures LType(ins) <==> Opcode(ins) == 0x03
    ensures SType(ins) <==> Opcode(ins) == 0x23
  {
    BitsOfSeven(ins[0..7]);
    assert ins[0..7][4] == ins[4] && ins[0..7][5] == ins[5];
  }

  lemma TransferFields(ins: Word)
    requires Opcode(ins) == 0x03 || Opcode(ins) == 0x23
    ensures Funct3(ins) == Val(ins) / 0x1000 % 8
  {
    Is32BitIff(ins);
    FieldsAre(ins);
  }

  lemma SizeOf(ins: Word)
    requires LType(ins) || SType(ins)
    ensures DmemSize(ins) == SizeCode(Funct3(ins)) && Memory.Bytes(DmemSize(ins)) == SizeBytes(DmemSize(ins))
  {
    RvCsr.Funct3Bound(ins);
  }

  /** For every load and store, the custom three-byte ones included. */
  lemma TransferSizes(ins: Word)
    requires Val(ins) % 0x80 == 0x03 || Val(ins) % 0x80 == 0x23
    ensures DmemSize(ins) == SizeCode(Val(ins) / 0x1000 % 8)
    ensures Memory.Bytes(DmemSize(ins)) == SizeBytes(DmemSize(ins))
    ensures Val(ins) % 0x80 == 0x03 ==> (DmemZeroEx(ins) <==> Val(ins) / 0x1000 % 8 >= 4)
  {
    RvWords.OpcodeIs(ins);
    TransferBits(ins);
    TransferFields(ins);
    SizeOf(ins);
  }

  lemma Whole(w: Word)
    ensures w[..32] == w && w + Rep(0, false) == w
  {
  }

  lemma Extended(w: Word, n: nat)
    requires 0 < n <= 32
    ensures SVal(w[..n] + Rep(32 - n, w[n - 1])) == SVal(w[..n])
    ensures Val(w[..n] + Rep(32 - n, false)) == Val(w) % Pow2(n)
  {
    SignExtendVal(w[..n], 32 - n);
    ZeroExtendVal(w[..n], 32 - n);
    ValSplitDivMod(w, n);
  }

  /** Sign extension keeps the signed value of the block, narrowing its unsigned value. */
  lemma SizedValues(size: nat, w: Word)
    requires size == 0 || size == 1 || size == 2 || size == 3 || size == 7
    ensures SVal(Memory.SignExtend(size, false, w)) == SVal(w[..8 * SizeBytes(size)])
    ensures Memory.SignExtend(size, true, w) == w
    ensures Val(Memory.Narrow(size, w)) == Val(w) % Pow2(8 * SizeBytes(size))
  {
    if SizeBytes(size) == 4 {
      Whole(w);
    }
    Extended(w, 8 * SizeBytes(size));
  }

  // ----- accesses

  /** The address is behind the last byte. */
  ghost predicate Beyond(k: C.Core, i: Isa.Instr) { (i.Load? || i.Store?) && Isa.Address(Abs(k), i) >= |k.mem| }

  /** What a load makes of the word on the bus: its low bytes, sign extended; without sign extension the
      whole word is taken as it is. */
  ghost predicate FromBus(i: Isa.Instr, bus: Word, r: Word)
    requires i.Load?
  {
    if i.signed && i.bytes <= 2 then SVal(r) == SVal(bus[..if i.bytes == 1 then 8 else 16]) else r == bus
  }

  lemma LoadFromBus(k: C.Core, x: C.In, i: Isa.Instr, alu: Word)
    requires i.Load? && LoadSelected(x.ins, i) && Val(alu) >= |k.mem|
    ensures FromBus(i, x.dbus, C.LoadData(k, x, alu))
  {
    if i.bytes == 1 {
      SignExtendVal(x.dbus[..8], 24);
    } else if i.bytes == 2 {
      SignExtendVal(x.dbus[..16], 16);
    }
  }

  lemma {:induction false} PokesNothing(mem: seq<Memory.Byte>, addr: nat, n: nat, data: Bits)
    requires addr >= |mem| && |data| >= 8 * n
    ensures Memory.Written(mem, addr, n, data) == mem
  {
    if n > 0 {
      PokesNothing(mem, addr, n - 1, data);
    }
  }

  lemma AddressReady(k: C.Core, x: C.In, i: Isa.Instr)
    requires Ready(k, x) && Presents(x, i) && (i.Load? || i.Store?)
    ensures Val(C.AluRes(k, x)) == Isa.Address(Abs(k), i) && !C.Start(k, x) && !C.Stop(x)
  {
    Undisturbed(k, x, i);
    AluDelivers(k, x, i);
    AddressIs(Abs(k), i, C.AluRes(k, x));
  }

  lemma AddressIs(m: Isa.Machine, i: Isa.Instr, alu: Word)
    requires Delivers(m, i, alu) && (i.Load? || i.Store?)
    ensures Val(alu) == Isa.Address(m, i)
  {
  }

  /** The falling edge of a load whose data is r. */
  ghost predicate Loads(k: C.Core, k': C.Core, i: Isa.Instr, r: Word)
    requires i.Load?
  {
    i.rd < |k.regs| && k'.mem == k.mem && k'.regs == if i.rd == 0 then k.regs else k.regs[i.rd := r]
  }

  lemma BusWrites(k: C.Core, x: C.In, i: Isa.Instr, alu: Word)
    requires C.Shape(k) && !C.Start(k, x) && WriteSelected(x.ins, i) && i.Load?
    ensures Loads(k, C.NegedgeWith(k, x, alu), i, C.LoadData(k, x, alu))
  {
  }

  lemma BusKeeps(k: C.Core, x: C.In, i: Isa.Instr, alu: Word)
    requires C.Shape(k) && WriteSelected(x.ins, i) && i.Store? && Val(alu) >= |k.mem|
    ensures C.NegedgeWith(k, x, alu).mem == k.mem && C.NegedgeWith(k, x, alu).regs == k.regs
  {
    var size := DmemSize(x.ins);
    PokesNothing(k.mem, Val(alu), Memory.Bytes(size), Memory.Narrow(size, k.regs[Rs2(x.ins)]));
  }

  lemma BusLoads(k: C.Core, x: C.In, i: Isa.Instr, alu: Word)
    requires C.Shape(k) && !C.Start(k, x) && WriteSelected(x.ins, i) && i.Load? && LoadSelected(x.ins, i)
    requires Val(alu) >= |k.mem|
    ensures Loads(k, C.NegedgeWith(k, x, alu), i, C.LoadData(k, x, alu)) && FromBus(i, x.dbus, C.LoadData(k, x, alu))
  {
    LoadFromBus(k, x, i, alu);
    BusWrites(k, x, i, alu);
  }

  /** A load from behind the data memory puts the bus word into rd and changes nothing else. */
  lemma LoadBeyond(k: C.Core, x: C.In, i: Isa.Instr) returns (r: Word)
    requires Ready(k, x) && Presents(x, i) && i.Load? && Beyond(k, i)
    ensures FromBus(i, x.dbus, r) && Loads(k, C.Negedge(k, x), i, r)
  {
    r := C.LoadData(k, x, C.AluRes(k, x));
    AddressReady(k, x, i);
    SelectLoad(x, i);
    SelectWrite(x, i);
    BusLoads(k, x, i, C.AluRes(k, x));
  }

  /** A store there changes neither memory nor registers. */
  lemma StoreBeyond(k: C.Core, x: C.In, i: Isa.Instr)
    requires Ready(k, x) && Presents(x, i) && i.Store? && Beyond(k, i)
    ensures C.Negedge(k, x).mem == k.mem && C.Negedge(k, x).regs == k.regs
  {
    AddressReady(k, x, i);
    SelectWrite(x, i);
    BusKeeps(k, x, i, C.AluRes(k, x));
  }
}
