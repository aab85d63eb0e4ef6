# A verified model of the hardware library

This project models four parts of the repository in Dafny and proves what they are for: the
UART, the single-cycle RISC-V core, the parametric arithmetic, and the small sequential
machines. A clock edge, or a baud tick, is one step. Combinational blocks are functions on bit
sequences of any width, least significant bit first (`Bits`). Registers and buffers are objects
whose methods are the clock edges, and every such method is tied to a step function on values;
the theorems about whole runs are about those functions.

| part | modules |
|---|---|
| bit vectors | `Bits` |
| UART | `UartLine` (line settings and reference frame), `UartTx`, `UartRx`, `UartNoise`, `UartStream` (a whole noisy line), `UartPause` (the pause it does not survive), `UartErrors` (what the error flags mean), `UartLoopback` (the whole loop), `UartBaud` (its clock), `UartLag`, `UartRoundTrip`, `UartFlow`, `UartProgress`, `UartHardware` and `UartObject` (the clocked objects) |
| FIFO | `Queue` (reference), `Fifo` (circular buffer), `FifoFlags` (the alternative flags) |
| arithmetic | `Adder`, `Shift`, `Alu`, `Counter` |
| RISC-V core | `Decode`, `Memory`, `Csr`, `Core`, `CoreObject`; `Isa` is an independent RV32I interpreter on integers; `RvValues`, `RvUnits`, `RvRefine`, `RvMain`, `RvRun`, `RvHalt`, `RvBus` connect the two; `RvTrap`, `RvInterrupt`, `RvCsr` and `RvWords` are about traps, interrupts, CSR instructions and their encodings |
| encoder | `Encoder`, `EncoderRoundTrip` |
| small machines | `Sequence`, `Detectors1010`, `ClockDivider`, `ShiftReg`, `Spi` |

## Main results

* **UART round trip.** For every line control setting, every schedule of CPU writes and reads,
  every timing of the system clock between baud ticks and every FIFO depth, the words the
  receiver announces are the accepted bytes in order, cut to the character length, with both
  error bits 0 (`UartRoundTrip.RoundTrip`). The bytes accepted are exactly those written while
  there was room (`UartFlow.Flow`); the CPU reads them in order with exactly the overruns
  left out, and LSR.OE shows an overrun until read (`Delivery`); and all of them arrive within a stated number of ticks once the
  CPU stops writing (`UartProgress.EverythingArrives`), and then it can read them all
  (`UartFlow.EverythingRead`). The clocked objects, circular buffers
  and next-state latches included, take exactly these steps (`UartObject`).
* **Noise.** On a line of any number of frames, back to back or with pauses of at least two ticks,
  with dips that are voted away in the pauses and at most one wrong sample per bit, the receiver
  hears every byte, in order and without error flags (`UartStream.LineHeard`). A pause of one tick
  is exactly the one that breaks it (`UartPause.CleanPause`). On any waveform the framing flag
  says that the stop bit was voted 0, and the parity flag that an odd number of data and parity bits
  arrived wrong (`UartErrors.ErrorsReported`).
* **The core refines RV32I.** For every RV32I instruction other than FENCE, ECALL and EBREAK, with
  fetch on, a PC divisible by 4, no enabled interrupt pending and data accesses inside the data
  memory, a falling and a rising edge are one step of the interpreter if and only if the
  instruction is not a JALR that overwrites its own base register with a different target
  (`RvMain.CycleRefines`). Whole programs fetched from instruction memory stay in step as long
  as each instruction is of that kind and its target is aligned (`RvRun.ProgramRefines`), and from
  a reset on that needs nothing about the interrupt lines (`RvRun.BootRefines`), up to the zero word
  that ends the program, behind which the core stands still for ever (`RvHalt.ProgramHalts`).
* **Traps.** Entry, any handler and MRET resume at p + 4 with mstatus restored
  (`RvTrap.TrapRoundTrip`, for the word of MRET in `RvWords.MretResumes`). The words that trap as
  illegal, the exception codes and the CSR numbers are given as numbers (`RvWords`).
* **Arithmetic of any width.** Gate-level and data-flow ALU agree (`Alu.GateFlowIsDataFlow`);
  adder, comparator and barrel shifter compute what their names say; all four counters count.
* **Small machines.** The overlapping detector is a prefix automaton for all 16 patterns, the other
  one finds exactly the attempts it completes (`Sequence.AttemptsDetected`), the
  clock divider has a closed form, an SPI daisy chain is a delay line, and the encoders of the
  test sequences round-trip through the decoder.

## Where the code departs from its documentation or its standard

The member named with each states it, by a concrete input or an exact condition.

* JALR with rd = rs1 ≠ x0: rs1 is read again after the falling edge has written rd, so the jump
  is relative to the link address (`RvMain.HazardExample`).
* An illegal CSRRC or CSRRCI (a CSR number csr.sv does not know) traps to address 0 instead of
  the base in mtvec, because the arithmetic unit is still set to AND
  (`RvTrap.TargetIsBase`, `RvTrap.ClearedExample`).
* CSRRW from x0 and CSRRWI of 0 do not write (`RvCsr.CsrAccess`, `RvCsr.SkippedExample`).
* The alignment exception tests bits 0 and 1 of the PC together, and bit 0 is never set, so it
  can never fire (`RvTrap.NeverMisaligned`): `jal x0, 2` goes to address 2
  (`RvMain.MisalignedExample`), and the core departs from the ISA exactly when bit 1 of a target
  is set (`RvMain.AlignmentIgnored`).
* A trap request in the cycle after another one is dropped, so the first instruction of a handler
  cannot trap; an illegal one may even write rd (`RvTrap.TrapEntry`, `RvTrap.NestedTrapDropped`;
  ECALL as that instruction in `RvTrap.NestedExample`, the word 0xFB in
  `RvTrap.IllegalWritesExample`).
* A CSR write that enables a pending interrupt starts the trap on the rising edge, too late for mepc,
  mcause, mtinst and the interrupt stack to be written (`RvCsr.CsrAccess`, with the condition on the
  state before the cycle in `RvCsr.EnablesIs` and `csrrsi x0, mstatus, 8` in `RvCsr.LateExample`).
  If the write was a set and mtvec is vectored, base and offset are or-ed instead of added
  (`RvCsr.LandsOnVector`, `RvCsr.MissedVectorExample`).
* An interrupt does not hold the interrupted instruction back: a store is carried out at the address where
  the trap goes, and mip, or mie, mtvec and mscratch if the instruction writes them, receive that address
  (`RvInterrupt.InterruptSaves`). With only MPIE set, as in a handler, an enabled interrupt overwrites
  mepc, mcause and mstatus but does not jump (`RvInterrupt.InterruptJumps`).
* Without overlap the sequence detector forgets partial matches: for eight of the sixteen patterns
  it misses occurrences, such as 1101 in 11101 (`Sequence.NonOverlapDetects`).
* A frame that follows a stop bit after exactly one idle tick is not heard in its own time
  (`UartPause.CleanPause`, `UartPause.PauseDecides`); 0xFF without parity is then never heard
  (`UartPause.LostExample`).
* An SPI transfer of 15 or 16 bits never ends (`Spi.TransferEnds`).
* `seq_itype` adds bit 30 instead of or-ing it, so it can carry (`Encoder.IType.Encode` states
  the result either way; the shift encoders leave no bit to collide with).

## Model

| member | source | states |
|---|---|---|
| UartLine.ParityMeaning | UART/uart_tx.sv:71-93 | data and parity bit hold an even or odd number of ones as EPS asks; stick parity is the complement of EPS (PC16550D, section 8.1) |
| UartLine.MaskedValue | UART/uart_rx.sv:133-140 | cutting a byte to the character length is reduction modulo 2^(5+WLS) |
| UartTx.FrameShape | UART/uart_tx.sv:50-140 | from the first tick of a start bit the line shows, tick by tick, exactly the reference frame, for exactly its length; the byte is pulled at one tick, after the parity bit; TEMT is up exactly from the stop bit on |
| UartTx.FrameLength | UART/uart_tx.sv:52-59 | the bits of the frame add up to the data sheet's length, with 1, 1.5 or 2 stop bits |
| UartTx.IdleWaits | UART/uart_tx.sv:96-193 | with nothing to send the line stays high, TEMT stays up and nothing is pulled, for any number of ticks |
| UartTx.PosStep | UART/uart_tx.sv:96-193 | every tick moves one tick further through the frame; the last one starts the next frame or goes idle |
| UartRx.AtEnd | UART/uart_rx.sv:178-218 | at the end of a bit the receiver has recorded its vote and expects the next bit of the frame, the last one before it being shifted in |
| UartRx.FrameWord | UART/uart_rx.sv:97-140 | the votes of a clean frame give the masked byte with no framing and no parity error |
| UartRx.OutIsWordOf | UART/uart_rx.sv:97-140 | from the third sample of the stop bit on, data and error flags are a function of the votes of the frame alone; UartErrors says which |
| UartErrors.WordMeaning | UART/uart_rx.sv:97-140 | for any votes: the data are the bits voted for, the framing flag says that the stop bit was 0, the parity flag that parity is on and the number of ones does not fit EPS, or the stick bit is not the complement of EPS (PC16550D, section 8.1) |
| UartErrors.ParityDetects | UART/uart_rx.sv:100-107 | whatever was sent and received, the parity flag is up exactly if an odd number of data and parity bits arrived wrong |
| UartErrors.OneWrongBit | UART/uart_rx.sv:100-107 | so one wrong bit is always reported |
| UartErrors.ErrorsReported | UART/uart_rx.sv:59-140 | the same two flags for the word announced on any waveform |
| UartNoise.VotesDecide | UART/uart_rx.sv:59-81 | from rest, any waveform gives exactly one announcement, at a fixed tick, and the word depends on the votes of the three samples per bit only |
| UartNoise.SameVotesSameWord | UART/uart_rx.sv:59-65 | waveforms with the same votes give the same word and flags |
| UartNoise.NoiseImmunity | UART/uart_rx.sv:57-66 | with at most one wrong sample per bit, and anything between the samples, the byte arrives without error |
| UartNoise.GlitchFiltered | UART/uart_rx.sv:17-66 | a glitch no longer than the distance between two samples, 1 tick at 8 ticks a bit and otherwise 2, never changes the vote, wherever it falls |
| UartNoise.SampleTicks | UART/uart_rx.sv:17-21 | the samples of a bit lie at ticks 3, 4, 5 of 8, at 6, 8, 10 of 16 and at 14, 16, 18 of 32 |
| UartNoise.FalseStartDropped | UART/uart_rx.sv:178-187 | a start bit voted 1 leads back to IDLE and announces nothing |
| UartStream.FrameHeard | UART/uart_rx.sv:143-218 | a noisy frame from rest gives exactly one word, the clean one |
| UartStream.PauseRests | UART/uart_rx.sv:76-81 | after a pause the receiver is ready for a start bit if and only if the pause behind a stop bit is not exactly one tick |
| UartStream.LineHeard | UART/uart_rx.sv:59-218 | any number of noisy frames, back to back or with pauses other than of one tick and with dips that are voted away, arrive complete, in order and error free |
| UartStream.DipDropped | UART/uart_rx.sv:178-187 | a dip on the idle line that is voted away announces nothing and leaves the receiver ready after one high tick |
| UartPause.PauseDecides | UART/uart_rx.sv:74-81 | a frame with a clean start bit, g idle ticks behind a stop bit, gives its clean word within its own time if and only if g is not 1, and then nothing |
| UartPause.CleanPause | UART/uart_rx.sv:169-187 | the same for every noise-free frame |
| UartPause.TooSoon | UART/uart_rx.sv:143-218 | whatever the line does, no word comes sooner than a frame after its start bit was taken |
| UartPause.LostExample | UART/uart_rx.sv:74-81 | one idle tick behind a stop bit, 0xFF without parity is never heard, however long one waits |
| UartBaud.BaudIsTimely | UART/uart.sv:105-117 | between two baud ticks lie exactly div system clocks, enough for the synchroniser wherever it is used |
| UartBaud.NextTickExists | modules/clock_divider.sv:69-83 | every multiple of div is a tick, and the next one is div clocks later |
| UartLag.LagStep | UART/uart_rx.sv:68-81 | the receiver stays one tick behind the transmitter through every tick of every frame |
| UartLag.StateClocksNeverMeet | UART/uart_rx.sv:70-72 | when the receiver's state is clocked the transmitter does not change state, so the line it looks at is steady |
| UartLag.LagDone | UART/uart_rx.sv:143-176 | the announcement comes once per frame, at one tick of the first stop bit, with the clean word |
| UartRoundTrip.TickKeeps | UART/uart.sv:43-93 | a baud tick keeps the invariant of the whole loop |
| UartRoundTrip.ClkKeeps | UART/uart.sv:96-140 | a system clock keeps it, whatever the CPU does |
| UartRoundTrip.ClkConserves | UART/uart_top.sv:111-164 | each announced word is pushed or counted as an overrun that raises LSR.OE, never both or neither; LSR.OE falls only after a read has shown it |
| UartRoundTrip.RoundTrip | UART/uart.sv:54-140 | the announced words are the accepted bytes in order, masked, error free; when transmitter and FIFO are idle none is missing |
| UartRoundTrip.Delivery | UART/uart.sv:120-134 | what the CPU reads and what is still queued are the clean words of the first bytes written, in order, with exactly the overruns left out; LSR.OE is up, but for the clock after a read of LSR, exactly while there is an unseen overrun |
| UartFlow.ClkAccepts | UART/uart.sv:124-126 | a byte is accepted if and only if it is written while fewer than depth bytes, or without FIFO mode none, are queued |
| UartFlow.ClkOverrun | UART/uart_top.sv:158-164 | LSR.OE rises exactly on a word without room and falls exactly after an LSR read without another one |
| UartFlow.ClkRead | UART/uart.sv:120-134 | a read takes the oldest word, if there is one |
| UartFlow.Flow | UART/uart.sv:123-127 | on every run the bytes accepted are those written while there was room, in order, and a word is kept exactly if there was room for it |
| UartFlow.EverythingRead | UART/uart.sv:54-140 | after the CPU has stopped writing, the wait of EverythingArrives and one read per queued word, it has read the clean words of all accepted bytes with exactly the overruns left out |
| UartProgress.TickCounts | UART/uart_tx.sv:50-59 | every tick reduces the number of ticks left by one |
| UartProgress.EverythingArrives | UART/uart.sv:75-93 | after a bit time, the current frame and one frame per queued byte, everything accepted has been announced |
| UartProgress.OneTickBehind | UART/uart_rx.sv:68-72 | on every run, during a frame the receiver is in the same bit with its counter one behind |
| UartHardware.Transmitter.Settle | UART/uart_tx.sv:142-184 | the next-state latch holds what the transition function says, also while it is closed |
| UartHardware.Transmitter.BaudTick | UART/uart_tx.sv:50-69 | the clocked transmitter takes the step of the model |
| UartHardware.Receiver.BaudTick | UART/uart_rx.sv:59-95 | the clocked receiver, samples and both latches included, takes the step of the model |
| UartObject.Uart.Tick | UART/uart.sv:43-93 | both machines tick on the state before the tick; the abstract state takes the loop's tick |
| UartObject.Uart.Clk | UART/uart.sv:96-140 | circular buffers, edge detectors, synchroniser and LSR.OE take the loop's clock |
| UartObject.Uart.constructor | UART/uart.sv:20-40 | the reset state is an initial state of the loop |
| Queue.TailOfLog | tb_uvm_fifo/scoreboard.sv:62-74 | pulling, then pushing, keeps the queue the tail of everything accepted; a pull on empty takes nothing and a push without room is not accepted |
| Fifo.Turns | modules/fifo.v:45-88 | pointers, count and buffer together move as the reference queue does, on full and on empty as well |
| Fifo.CountIs | modules/fifo.v:106-124 | the two's-complement step of the counter follows the gated enables |
| Fifo.Fifo.Clock | modules/fifo.v:45-124 | the circular buffer is the reference queue through pushes, pulls and resets |
| FifoFlags.FlagsAgree | modules/fifo.v:89-104 | on every run and every depth both forms of the flags are empty and full exactly when the queue is |
| Adder.AdderExact | modules/adder.v:34-41 | {carry, sum} is the exact sum, or the exact difference plus 2^n |
| Adder.AdderOverflow | modules/adder.v:58-61 | overflow exactly when the signed result does not fit; otherwise the sum is that result |
| Adder.Comparator | modules/adder.v:63-66 | eq, ltu and lt are equality, unsigned and signed order |
| Adder.DataFlowAdder | modules/adder.v:48-66 | the loop of the data-flow branch gives every output of the gate-level chain |
| Adder.FastAdder | modules/adder.v:89-105 | fast_adder agrees with the chain; its comparison flags are low outside subtract mode |
| Shift.RightUnsigned | modules/shift.v:60-82 | logical right shift is floor division by 2^k, for every width and count |
| Shift.RightSigned | modules/shift.v:60-82 | arithmetic right shift is floor division of the signed value |
| Shift.LeftMultiplies | modules/shift.v:29-45 | the reversed path is multiplication by 2^k modulo 2^n |
| Shift.LeftIs | modules/shift.v:91-110 | the dedicated left shifter gives the same |
| Shift.ShiftBlock | modules/shift.v:33-45 | the two loops around the right shifter give the shifted slice of the input |
| Alu.GateFlowIsDataFlow | RISCV_SingleCycle/alu.sv:52-113 | both forms agree for every operation, every width from 2 and all operands |
| Alu.BranchFormsAgree | RISCV_SingleCycle/branch_control.sv:17-52 | the comparator form and the operator form take the same branches |
| Counter.StepBelow | modules/counter.v:103-110 | n enabled bits and the enable of bit n are the exact count |
| Counter.Counts | modules/counter.v:40-52 | flipping the enabled bits adds +1, -1 or 0 modulo 2^n |
| Counter.RunCounts | modules/counter.v:94-112 | over every run the count is the start plus ups minus downs modulo 2^n |
| Counter.DCounter.Clock | modules/counter.v:40-52 | the D counter counts or loads; a load needs en |
| Counter.TCounter.Clock | modules/counter.v:103-111 | the synchronous T counter counts |
| Counter.JkCounter.Clock | modules/counter.v:130-149 | the JK counter counts; its reset wins |
| Counter.RippleCounter.Clock | modules/counter.v:75-84 | the ripple settles in at most n flips to the same count |
| Memory.Ram.WriteClock | modules/memory.sv:75-113 | a write clock stores the little-endian bytes of the block size and nothing else |
| Memory.Ram.ReadPort | modules/memory.sv:141-250 | the read port collects the bytes of the block, or 0 beyond the array |
| Memory.ReadAfterWrite | modules/memory.sv:75-250 | a block reads back as written, cut to its size, and disjoint blocks read as before |
| RvValues.FieldsAre | RISCV_SingleCycle/decode.sv:49-54 | the fields are those of the ISA |
| RvValues.ImmBIs | RISCV_SingleCycle/decode.sv:57 | the branch immediate is the ISA's signed offset |
| RvValues.ImmJIs | RISCV_SingleCycle/decode.sv:56 | so is the jump immediate |
| RvValues.ImmSIs | RISCV_SingleCycle/decode.sv:58 | so is the store immediate |
| RvUnits.AluIs | RISCV_SingleCycle/alu.sv:52-86 | the gates compute the ISA's operation on 32-bit numbers |
| RvUnits.BranchIs | RISCV_SingleCycle/branch_control.sv:27-36 | branches are taken as the ISA compares |
| RvUnits.LoadIs | RISCV_SingleCycle/sign_extender.sv:39-69 | memory read and extension give the ISA's loaded value |
| RvUnits.StoreIs | RISCV_SingleCycle/data_handler.sv:22-33 | narrowing and byte writes give the ISA's memory |
| RvRefine.Legal | RISCV_SingleCycle/decode.sv:68-124 | an RV32I instruction is never taken for an illegal, CSR or system one |
| RvRefine.AluDelivers | RISCV_SingleCycle/control.sv:35-143 | for every instruction control picks the operation and operands that make the arithmetic unit deliver the ISA's address or result |
| RvRefine.WriteBackIs | RISCV_SingleCycle/riscv_core.sv:248-261 | what is written back is what the ISA puts in rd |
| RvRefine.RegistersAre | RISCV_SingleCycle/register_file.sv:29-39 | after the falling edge the register file is the ISA's, x0 included |
| RvMain.FallingEdge | RISCV_SingleCycle/riscv_core.sv:190-261 | the falling edge performs the register and memory effect of the instruction and leaves the CSRs alone |
| RvMain.RisingEdge | RISCV_SingleCycle/riscv_core.sv:275-301 | the rising edge moves the PC as the ISA would from the state it finds |
| RvMain.CycleRefines | RISCV_SingleCycle/riscv_core.sv:190-301 | a cycle is one ISA step if and only if there is no JALR hazard; registers and memory always agree |
| RvMain.HazardExample | RISCV_SingleCycle/riscv_core.sv:284-291 | jalr x1, 0(x1) lands on its link address |
| RvMain.AlignmentIgnored | RISCV_SingleCycle/riscv_core.sv:284-291 | every jump goes to its target without a trap, so the core departs from the ISA if and only if bit 1 of the target is set |
| RvMain.MisalignedExample | RISCV_SingleCycle/csr.sv:69 | jal x0, 2 at address 0 goes to 2 and leaves the CSRs alone |
| RvBus.TransferSizes | RISCV_SingleCycle/control.sv:74-91 | block size and extension of every load and store by its funct3, the custom three-byte one included |
| RvBus.SizedValues | RISCV_SingleCycle/sign_extender.sv:39-69 | sign extension keeps the signed value of a block of any size, narrowing its unsigned value |
| RvBus.LoadBeyond | RISCV_SingleCycle/riscv.sv:43 | a load from behind the data memory puts the bus word, sign extended if asked, into rd and changes nothing else |
| RvBus.StoreBeyond | RISCV_SingleCycle/riscv.sv:125-145 | a store there changes neither memory nor registers |
| RvRun.FetchIs | RISCV_SingleCycle/riscv.sv:92-108 | the big-endian instruction memory holds the ISA's words |
| RvRun.ProgramRefines | RISCV_SingleCycle/riscv_core.sv:264-301 | whole programs stay in step with the interpreter |
| RvRun.BootRefines | RISCV_SingleCycle/riscv_core.sv:264-281 | from a reset, one clock switches fetch on, and then the program at address 0 runs in step with the interpreter, whatever the interrupt lines do |
| RvHalt.FetchLaw | RISCV_SingleCycle/riscv_core.sv:264-273 | after a cycle fetch is on exactly if the PC was 0 or the word was not |
| RvHalt.PcStep | RISCV_SingleCycle/riscv_core.sv:293-301 | without a jump the PC moves by 4 for a word ending in 11 or with a zero opcode, by 2 for any other, and not while fetch is off |
| RvHalt.IdleCycle | RISCV_SingleCycle/riscv_core.sv:264-281 | a zero word changes no register and no memory byte, moves the PC by 4 only if fetch was on, and switches fetch off unless the PC was 0 |
| RvHalt.ProgramHalts | RISCV_SingleCycle/riscv_core.sv:264-301 | from a reset through n instructions in step with the interpreter to the zero word that ends the program; from then on, with the latch of the instruction memory holding that word, PC, registers and memory stay for ever |
| RvTrap.TrapEntry | RISCV_SingleCycle/csr.sv:132-232 | a request by ECALL, EBREAK or an illegal instruction is taken if the cycle before had none: p, cause and MIE are saved, no register or memory is written; otherwise it is dropped and nothing is saved |
| RvTrap.TargetIsBase | RISCV_SingleCycle/riscv_core.sv:196-230 | a trap reaches the mtvec base if and only if the instruction is not a CSRRC or CSRRCI of an unknown CSR, or the base is 0 |
| RvTrap.NestedTrapDropped | RISCV_SingleCycle/csr.sv:132-134 | a request by the first instruction of a handler is dropped |
| RvTrap.NestedExample | RISCV_SingleCycle/csr.sv:132-134 | ECALL as the first instruction of a handler is dropped |
| RvTrap.IllegalWritesExample | RISCV_SingleCycle/riscv_core.sv:191 | the unknown word 0xFB right after a trap clears x1 |
| RvTrap.ClearedExample | RISCV_SingleCycle/riscv_core.sv:196-230 | csrrc x0, 0x7C0, x1 traps to 0 |
| RvTrap.HandlerRun | RISCV_SingleCycle/csr.sv:172-193 | any handler without trap, return or write to mepc and mstatus leaves both alone |
| RvTrap.ReturnCycle | RISCV_SingleCycle/csr.sv:172-184 | MRET goes to mepc + 4, moves MPIE back and changes no register or memory |
| RvTrap.TrapRoundTrip | RISCV_SingleCycle/csr.sv:75-193 | entry, any handler, MRET: resume at p + 4 with every mstatus bit but MPIE as before |
| RvInterrupt.InterruptSaves | RISCV_SingleCycle/csr.sv:132-232 | the falling edge of an interrupt records mepc, mtinst, the code with bit 31 and the interrupt stack, writes no register, and spills the trap address into mip, into a CSR the instruction writes, and into memory if it is a store |
| RvInterrupt.InterruptJumps | RISCV_SingleCycle/csr.sv:60-74 | over the whole cycle control leaves the program if and only if MIE was set; with MPIE alone the CSRs are overwritten and the program goes on |
| RvWords.SystemWords | RISCV_SingleCycle/csr.sv:92-114 | ecall, ebreak, mret, sret and mnret are exactly the words 0x73, 0x100073, 0x30200073, 0x10200073 and 0x70200073 |
| RvWords.IllegalWords | RISCV_SingleCycle/decode.sv:68-124 | with fetch on a word is illegal exactly if it is neither zero nor one of the words listed by opcode, branch condition, system word and CSR number |
| RvWords.Sources | RISCV_SingleCycle/control.sv:36-53 | where the value for rd comes from, by opcode |
| RvWords.TrapWords | RISCV_SingleCycle/csr.sv:172-232 | ecall traps with code 11, ebreak with 3, an illegal word with 2; mepc, mtinst and bits 3 and 7 of mstatus are recorded |
| RvWords.MretResumes | RISCV_SingleCycle/csr.sv:75-193 | the word of MRET after any handler resumes at p + 4 with mstatus restored but for bit 7 |
| RvWords.CsrReads | RISCV_SingleCycle/csr.sv:117-130 | csrrs rd, a, x0 reads the register with number a for each of the eight numbers |
| RvWords.CsrWrites | RISCV_SingleCycle/csr.sv:152-232 | csrrw x0, a, rs1 writes it, but for bits 7 and 11 of mip |
| RvWords.WritesWords | RISCV_SingleCycle/csr.sv:79-80 | the words that write the register with a given number, those no handler of the round trip may contain for 0x341 and 0x300 |
| RvWords.ResetValues | RISCV_SingleCycle/risc_pkg.sv:13-16 | after a reset traps go to 0x3DC, the PC is 0 and nothing is enabled |
| RvTrap.NeverMisaligned | RISCV_SingleCycle/csr.sv:69 | bit 0 of the PC stays clear on every run, so the alignment exception never fires |
| RvCsr.CsrAccess | RISCV_SingleCycle/csr.sv:79-127 | over a whole cycle a CSR instruction reads into rd and writes, sets or clears as the ISA says, if and only if it is not a plain write of x0 or 0 that would have cleared something; it goes on at pc + 4 if and only if the write does not enable a pending interrupt, which otherwise is entered with mepc, mcause, mtinst and the interrupt stack as they were |
| RvCsr.EnablesIs | RISCV_SingleCycle/csr.sv:60-74 | a trap starts between the edges of a CSR instruction if and only if the values it will leave in mstatus and mie let a line through and no trap was requested in the cycle before |
| RvCsr.Enablers | RISCV_SingleCycle/csr.sv:60-80 | only a write or set to mstatus or mie with a source other than 0 can do so, never a clear |
| RvCsr.LandsOnVector | RISCV_SingleCycle/control.sv:122-129 | such a trap reaches its vector if and only if the instruction was a plain write or base and offset share no bit |
| RvCsr.LateExample | RISCV_SingleCycle/csr.sv:132-191 | csrrsi x0, mstatus, 8 with an enabled line pending jumps to the base and leaves mepc alone |
| RvCsr.MissedVectorExample | RISCV_SingleCycle/riscv_core.sv:196-230 | with a vectored base that has bit 2 set it does not reach vector 11 |
| RvCsr.SkippedExample | RISCV_SingleCycle/csr.sv:79-80 | csrrw x0, mscratch, x0 leaves a mscratch of 1 |
| CoreObject.TrapUnit.Negedge | RISCV_SingleCycle/csr.sv:152-232 | the CSR flip-flops take the falling edge of the model |
| CoreObject.Processor.constructor | RISCV_SingleCycle/register_file.sv:29-36 | registers, CSRs, PC and fetch request hold their reset values |
| CoreObject.Processor.Falling | RISCV_SingleCycle/register_file.sv:29-39 | register array, byte array and CSRs, updated in place, take the falling edge |
| CoreObject.Processor.Rising | RISCV_SingleCycle/riscv_core.sv:264-291 | PC, fetch request and trap-started flag take the rising edge of the model; RvHalt.FetchLaw says what the fetch request becomes |
| Encoder.SumOfDisjoint | RISCV_SingleCycle/testbench/sequences.cpp:117-120 | adding fields that do not overlap is or-ing them |
| Encoder.UType.Jal | RISCV_SingleCycle/testbench/sequences.cpp:111-127 | the mask, shift and add steps build the J format and restore the field |
| Encoder.UType.Upper | RISCV_SingleCycle/testbench/sequences.cpp:95-102 | builds the U format |
| Encoder.SType.Encode | RISCV_SingleCycle/testbench/sequences.cpp:131-140 | builds the S format |
| Encoder.IType.Encode | RISCV_SingleCycle/testbench/sequences.cpp:198-218 | builds the I format with 2^10 added to the immediate if bit30 is given |
| Encoder.IType.Shift | RISCV_SingleCycle/testbench/sequences.cpp:368-385 | SLLI, SRLI and SRAI mask the amount to five bits, so the added bit 30 cannot collide |
| Encoder.BType.Encode | RISCV_SingleCycle/testbench/sequences.cpp:463-481 | builds the B format and restores the field |
| Encoder.RType.Encode | RISCV_SingleCycle/testbench/sequences.cpp:540-549 | builds the R format |
| Encoder.AddBit30 | RISCV_SingleCycle/testbench/sequences.cpp:204 | the addition changes the two top bits only, as 1 + 1 does |
| EncoderRoundTrip.UpperRoundTrip | RISCV_SingleCycle/decode.sv:60-66 | LUI and AUIPC come back with register and immediate |
| EncoderRoundTrip.JalRoundTrip | RISCV_SingleCycle/decode.sv:56 | JAL comes back with the sign-extended offset, scrambled bits and all |
| EncoderRoundTrip.BranchRoundTrip | RISCV_SingleCycle/decode.sv:57 | so do the branches |
| EncoderRoundTrip.StoreRoundTrip | RISCV_SingleCycle/decode.sv:58 | so do the stores |
| EncoderRoundTrip.ImmediateRoundTrip | RISCV_SingleCycle/decode.sv:59 | JALR, loads and all immediate arithmetic, shifts included, come back with any immediate |
| EncoderRoundTrip.ShiftRoundTrip | RISCV_SingleCycle/testbench/sequences.cpp:368-385 | SLLI, SRLI and SRAI come back as shifts by the masked amount |
| EncoderRoundTrip.SystemRoundTrip | RISCV_SingleCycle/testbench/sequences.cpp:229-249 | system and CSR words come back with registers, function code and address |
| EncoderRoundTrip.RegisterRoundTrip | RISCV_SingleCycle/decode.sv:49-54 | so does register arithmetic |
| Sequence.OverlapDetects | modules/sequence.v:29-84 | for every pattern and stream the state is the longest prefix of the pattern that ends the stream, and dout is up exactly after the four bits |
| Sequence.PulsesAreMatches | modules/sequence.v:33-38 | without overlap every pulse is a true match |
| Sequence.PulsesApart | modules/sequence.v:33-38 | and pulses are at least four inputs apart |
| Sequence.AttemptsDetected | modules/sequence.v:33-58 | without overlap, for every pattern and stream, the state is the length of the attempt in progress, which restarts with the failing bit alone, and dout is up exactly when an attempt has become the whole pattern |
| Sequence.PulsesAreAttempts | modules/sequence.v:33-58 | the pulses are exactly the occurrences of the pattern with whose first bit an attempt began |
| Sequence.FreshFound | modules/sequence.v:33-58 | the four bits are always found if no attempt is in progress before them |
| Sequence.NonOverlapDetects | modules/sequence.v:33-58 | it finds exactly the matches of a search that restarts after each match, on every stream, if and only if the pattern is restartable |
| Sequence.Detector.Clock | modules/sequence.v:41-58 | for whatever pattern has been held since the reset, dout marks the occurrences of the pattern in the inputs so far, all of them with overlap, without it those that an attempt completes |
| Detectors1010.DetectorsAgree | modules/sequence.v:96-177 | the three 1010 detectors and the general one agree on every stream, up to the registered output |
| Detectors1010.MealyDetector.Clock | modules/sequence.v:141-151 | the two flip-flops raise dout exactly when the inputs so far end in 1010 |
| Detectors1010.MooreDetector.Clock | modules/sequence.v:163-176 | so do the three |
| ClockDivider.ClosedForm | modules/clock_divider.sv:37-83 | counter and output after t clocks in closed form, one clock later with phase 1 |
| ClockDivider.Period | modules/clock_divider.sv:69-83 | the period is exactly div clocks, split at div / 2 |
| ClockDivider.Divider.Clock | modules/clock_divider.sv:69-83 | after t clocks with one divisor the counter and the output have the closed form |
| ClockDivider.OutputSelect | modules/clock_divider.sv:27-63 | the multiplexer passes the divided clock from 2 up, the input clock at 1, the idle level at 0 |
| ShiftReg.UpDelays | modules/shift_reg.v:83-100 | shift_reg_msb holds the latest inputs, newest in bit 0 |
| ShiftReg.DownDelays | modules/shift_reg.v:27-48 | shift_reg is its mirror image |
| ShiftReg.RegisterMsb.Clock | modules/shift_reg.v:83-100 | the bit loop is one shift, a load or a hold |
| Spi.TransferEnds | SPI/spi_top.sv:109-134 | the master is shifting after n clocks if and only if n is at most dlen or dlen is at least 14, so a transfer ends exactly when dlen is at most 13 |
| Spi.LineShifts | SPI/spi_top.sv:110-119 | the slaves shift as one long register |
| Spi.TransferExchanges | SPI/spi_top.sv:70-87 | a transfer swaps the loaded word for the oldest dlen + 1 bits of the chain |
| Spi.DaisyChain | SPI/spi_top.sv:109-168 | when the chain holds s words the master receives the word it loaded s transfers earlier |
| Spi.LoopbackReads | SPI/spi_top.sv:110-112 | in loopback the master reads back the word it sent |
| Spi.Bus.TransferWord | SPI/spi_top.sv:70-134 | loading a word and clocking until the master stops swaps it, in place, for the oldest dlen + 1 bits of the chain |

## Left out

- Csr.Driven: the two branches of csr.sv that clear a pending bit of mip on a return, because they need an interrupt while a return is decoded, which the enable equation rules out.
- Memory.Read: unknown bits outside the array read as 0, and the read latch is modelled as transparent, except for the instruction memory in RvHalt.
- Interrupts: where the trap of an interrupt lands beyond being the word on the result bus (that depends on the interrupted instruction, whose operation the arithmetic unit still performs), CLINT, and interrupts during a refined program; the refinement and trap theorems assume that no enabled interrupt is pending.
- RV64 operations and their encoders, FENCE, WFI, the custom three-byte load and store, compressed instructions and floating-point loads.
- Data accesses that straddle the end of the data memory, and what the surrounding bus does.
- UART: register decoding, interrupt identification, modem registers, break detection, LSR bits other than OE, changing LCR during a frame, clearing a FIFO by FCR, and a receive clock that differs from the transmit clock. Within a baud period the tick comes before the system clocks.
- UART baud rate: a divisor of 1, where the baud clock is the system clock itself, is not tied to the generator; the runs allow it.
- UART synchroniser: whether it is in the receive path is a parameter (the source looks at bits 8 to 2 of the divisor only); the round trip holds either way.
- UART line settings: the number of ticks per bit is any even number from 8 up; the source uses 8, 16 or 32.
- SPI: chip select and register writes during a transfer, the status latches, polarity and phase (each SPI clock is a master edge followed by a slave edge in all four modes) and right-justified loading.
- Ripple counter: the asynchronous reset and the delays between flips; en is constant during a ripple.
- Sequence detectors: the pattern is constant during a stream.
- The first fetch after a reset: the latch of the instruction memory, which has read nothing yet, is taken to show 0.
- Unknown and high-impedance values, gate delays and multiple drivers: every signal is one bit.
- The data-flow branches of `shift_reg_msb` and of the D counter's load, which do not match the gate-level branches.
- Multiplexers, decoders and the priority encoder, which are finite and easy.
- Testbench classes, drivers, monitors, coverage, build files.
