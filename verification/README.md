# Verified model of the tinyDLX emulator and assembler

tinyDLX is a complete small computer: a 32-bit DLX processor, a big-endian memory bus with ROM, RAM and
memory-mapped devices, an interrupt controller that buffers the requests of an Input Port and a Timer, and an
assembler that produces the ROM image. This project models the sequential core, the bus, the devices, the run
loop and the assembler, and proves what they guarantee together over every run, every program and every input.

`dafny verify dfyconfig.toml` checks the whole project.

## How the model is built

Words are integers modulo 2^32. The bit operators of C and Python are defined bit by bit (`Bits.dfy`), and
everything that shifts, masks or sign extends is proved equal to arithmetic.

Each component has two faces. A value-level specification gives the state after an operation as a function of the
state before. Where the original updates a structure in place, a class with the same fields has methods that
update them by the same steps, and whose postconditions equate the new state with that specification: the device
classes in `InterruptController.dfy`, `InputPort.dfy`, `OutputPort.dfy` and `Timer.dfy`, the processor with its
arrays in `Core.dfy`, the loops of the assembler in `Assembler.dfy`, and the include reader in `Include.dfy`.
The theorems are about the specification, so the methods inherit them.

What the outside decides enters as an argument of each cycle: the byte a poll of the standard input would
deliver, whether the host clock answers, and, in the run loop, whether a signal arrived. The standard output is
the field `sent` of the Output Port's state. A run is a finite sequence of such arguments, of any length and content.

| file | content |
|---|---|
| `Defs.dfy`, `Isa.dfy`, `Bits.dfy` | sizes, encodings, the bit operators and their arithmetic |
| `InterruptController.dfy`, `Timer.dfy`, `InputPort.dfy`, `OutputPort.dfy` | one device each, with the theorems about its own runs |
| `Devices.dfy` | the six devices wired together: routing, tick order, interrupt requests |
| `Bus.dfy` | memory accesses, and the one byte map they refine |
| `Cpu.dfy` | decode, execute, and the cycle as a function |
| `Safety.dfy`, `Memory.dfy`, `Faults.dfy`, `Uninitialised.dfy`, `Interrupts.dfy`, `Traffic.dfy`, `Overrun.dfy`, `Transparency.dfy`, `Loop.dfy` | theorems about runs of the machine |
| `MemoryMap.dfy`, `Driving.dfy`, `Calls.dfy` | the address map and the reset state in numbers; what a program gets from the devices it loads and stores; calls and returns |
| `Core.dfy` | the processor, the bus and the run loop as methods that update state in place |
| `Assembler.dfy`, `Layout.dfy`, `Include.dfy` | the assembler, its layout pass, include expansion |
| `Source.dfy`, `Simulation.dfy`, `Operands.dfy`, `Program.dfy` | integer semantics of source programs, the operands a word names, and the proof that the machine running the image simulates it |
| `Example.dfy` | small programs that meet the hypotheses of the theorems: a handler that returns, one that acknowledges too late, and an idle loop |

## Main results

- **Assembler correctness.** From reset, and from any state that keeps the invariant, the machine running an
  accepted program passes through exactly the states of the source program, whose semantics knows no encoding:
  operands are integers and targets are addresses. Hardware interrupts, traps, faults and device accesses are
  included (`BootSimulates`, `RunSimulates`). A word decodes to the fields it was made from (`RoundTrip`), and a
  taken branch or jump lands exactly on its label (`LabelReached`). An instruction is accepted iff its tokens have
  one of the syntaxes (`AcceptedIff`), and its word names the registers that stand in its operands (`OperandFields`).
- **Calls.** After any run that keeps R31, JR R31 resumes after the JAL or JALR (`CallReturns`).
- **Interrupt protocol.** An interrupt is taken iff it is enabled and a byte or a timer expiration is waiting
  (`TakenIff`); handler sections keep IAR and CR and return exactly where they came from (`HardwareRoundTrip`,
  `SoftwareRoundTrip`); an unserviced device starves the program (`NoProgress`), and so does a Timer that overtakes
  its handler (`Starves`), while a faster handler leaves P - H of P cycles to it (`ProgramRuns`); the registration order of
  the devices is irrelevant (`TickOrder`). Handlers are invisible: a program interrupted any number of times by
  handlers that restore what they use computes what it computes undisturbed (`Transparent`).
- **Memory.** Loads of any width return what the latest stores left, whatever accesses happened in between
  (`LoadLatest`), over whole runs (`RunBytes`); no run changes ROM (`RunKeeps`); programs that store before they
  load do not depend on what RAM held at reset (`ResetRamIrrelevant`).
- **Faults.** A cycle faults exactly under the stated conditions (`StepFaults`), and a strict run without fault
  is the normal run (`StrictPassesThrough`).
- **Include expansion.** Every reachable file once, depth first, at its first occurrence (`ExpandsReachableOnce`,
  `ExpandIsPieces`, `SeenIff`, `Subtree`).
- **Devices.** Conservation of input, rate of output and exact timing, for each device alone and for every run
  of the machine (`InputConserved`, `OutputRate`, `TimerCycles`), up to the instructions of a program: the bytes taken
  from the standard input are the values its loads returned (`InputReturned`), a store of a period starts the exact
  timing (`TimerFromStore`), and the Output Port is ready again in the third cycle after an accepted store and not
  before (`ReadyAgain`, `NextStoreSent`). The address map is stated in numbers (`LoadMap`, `StoreMap`).

Where the documentation and the code disagree, the model follows the code:

- docs/architecture/Devices.md calls accesses to the Timer of other sizes or offsets invalid, but the code ignores
  them without a fault (src/devices/dlx_timer.c:77): `Bus.TimerIgnoresOthers`.
- docs/architecture/Devices.md asks for byte accesses to the other devices; the code accepts every aligned width,
  and a fetch from a device address is a device read.
- docs/architecture/Devices.md:67 says that a handler of H >= P cycles is entered again immediately after its RFE.
  For a handler entered at an expiration that acknowledges before the next one this is right, and so is its converse
  (`Overrun.SlowHandlerIff`). For others it may fail: `Example.LateAcknowledgement` runs a handler of 5 cycles with a
  period of 3 that returns to the program. For all handlers, with no byte latched, the next cycle enters again iff
  more whole periods have passed by its tick than by the last acknowledgement (`Overrun.ReturnsIntoHandlerIff`).

One behaviour the documentation leaves open: after a faulty load stops a strict run, LW has left its register alone
while the narrower loads have written 0 to theirs (src/cpu_seq/dlx_seq_core.c:313-334): `Faults.InvalidLoad`.

## Model

| member | source | states |
|---|---|---|
| ProgramSimulation.BootSimulates | tools/asm.py:465-512 | every accepted program of at most 16384 instructions fits in ROM, and from reset, with any RAM and registers, the machine is in the state of the source program after every run that stays on the program's instructions |
| ProgramSimulation.RunSimulates | src/cpu_seq/dlx_seq_core.c:30-66 | the same from any state that keeps the invariant, for runs of any length, in both fault modes, interrupts to instruction 0 included |
| ProgramSimulation.StepSimulates | src/cpu_seq/dlx_seq_core.c:50-61 | one cycle (ticks, interrupt, fetch, decode, execute) is one step of the source program |
| ProgramSimulation.InstructionExecutes | src/cpu_seq/dlx_seq_core.c:103-378 | the word the assembler emits for an instruction, executed at the instruction's address, has the effect the instruction set table gives it on integers |
| ProgramSimulation.RoundTrip | tools/asm.py:212-222 | the word fetched at 4k decodes to the opcode, function, registers and immediate of instruction k: assemble, pack, load, fetch and decode invert each other |
| ProgramSimulation.FetchedWord | tools/asm.py:511-512 | the word fetched at 4k is the one assembled for instruction k, read big-endian from the loaded image |
| ProgramSimulation.ImageWords | tools/asm.py:491-512 | bytes 4k to 4k+3 of the output are the word of instruction k, and there is nothing else |
| ProgramSimulation.EncodedWord | src/cpu_seq/dlx_seq_core.c:90-101 | decoding inverts encoding field by field for every kind of instruction, with the displacement recovered as a signed distance |
| ProgramSimulation.LabelReached | tools/asm.py:135-151 | BEQZ, BNEZ, J or JAL to a label, when taken, sets the PC to exactly 4 times the number of instructions before the label; when not taken, to the next instruction |
| ProgramSimulation.NeverReserved | tools/asm.py:26-98 | no accepted instruction decodes to a reserved opcode, function code or special register; only an INT code can be unknown to the machine |
| ProgramSimulation.PastTheEnd | src/common/dlx_state.c:14-15 | ROM after the image reads 0, which is a reserved encoding |
| Simulation.AssembleIs | tools/asm.py:225-345 | an instruction is accepted iff its operands can be read and fit their fields, and the word is the encoding of what was read; the reading of operands has its own definition |
| Simulation.OperandsAgree | tools/asm.py:105-132 | the assembler reads register operands exactly as that definition does |
| Operands.AcceptedIff | tools/asm.py:225-345 | an instruction is accepted iff its tokens have one of the syntaxes: the right count, a number from 0 to 31 for every register, SR, IAR or CR for a special register, and immediates and displacements in their ranges |
| Operands.OperandFields | tools/asm.py:225-345 | the fields of the decoded word are the register and special register numbers of the operands, each in its place, for every syntax |
| Operands.AddWord | tools/asm.py:212-214 | `ADD R1, R2, R3` is 0x00430820 |
| Operands.MoveWord | tools/asm.py:212-214 | `MOVI2S IAR, R4` is 0x00800830 |
| Operands.LoadWord | tools/asm.py:217-218 | `LW R7, -8(R9)` is 0x8D27FFF8 |
| Operands.CallWord | tools/asm.py:221-222 | `JAL 12` is 0x0C00000C |
| Simulation.ResolveIs | tools/asm.py:164-209 | an immediate is accepted iff it lies between the signed minimum and the bit mask, a displacement iff it lies in the signed range; the field is the value modulo its width |
| Simulation.ExecuteIs | src/cpu_seq/dlx_seq_core.c:103-378 | for every mnemonic, executing its encoding computes the integer semantics |
| Simulation.RegisterOpIs | src/cpu_seq/dlx_seq_core.c:107-187 | the register operations on uint32_t and int32_t compute the arithmetic, shifts and signed comparisons of the table |
| Simulation.ImmediateOpIs | src/cpu_seq/dlx_seq_core.c:208-297 | the immediate operations compute the same operators on the sign or zero extended immediate |
| Simulation.TargetReached | src/cpu_seq/dlx_seq_core.c:73-88 | a displacement that fits survives masking and sign extension: adding it to the PC gives the target |
| Simulation.DecodeI | src/cpu_seq/dlx_seq_core.c:90-101 | decoding inverts encode_i, for both readings of the immediate |
| Simulation.DecodeR | src/cpu_seq/dlx_seq_core.c:90-101 | decoding inverts encode_r |
| Simulation.DecodeJ | src/cpu_seq/dlx_seq_core.c:90-101 | decoding inverts encode_j, for both readings of the immediate |
| Calls.CallLinks | src/cpu_seq/dlx_seq_core.c:338-349 | JAL and JALR at address a set R31 to a + 4, keep every other register, jump by the displacement or to the register as it was before, and change nothing else |
| Calls.CallReturns | src/cpu_seq/dlx_seq_core.c:335-349 | from a call at address a through any run that ends with R31 as the call set it, JR R31 resumes at a + 4 |
| LayoutPass.Addresses | tools/asm.py:406-414 | the instructions keep their order and get the addresses 0, 4, 8, ... |
| LayoutPass.LabelValue | tools/asm.py:354-379 | the value of every label is 4 times the number of instructions before it |
| LayoutPass.EquValue | tools/asm.py:382-404 | the value of every `.equ` constant is the number written |
| LayoutPass.Accepted | tools/asm.py:348-416 | a source is accepted iff every line is well formed and no name is declared twice, labels and constants together; the table holds exactly the declared names |
| Assembler.ParseLines | tools/asm.py:348-416 | the loop with its growing list, table and address computes the layout the theorems are about, or the first error |
| Assembler.WriteImage | tools/asm.py:491-512 | the output loop writes the image the theorems are about, or stops at the first error |
| Assembler.AssembleSource | tools/asm.py:485-512 | both passes together compute the image of the file |
| IncludeExpansion.ExpandsReachableOnce | tools/asm.py:419-462 | on any finite include graph, cyclic or not, exactly the reachable files are expanded, each once, with all its other lines in order |
| IncludeExpansion.ExpandIsPieces | tools/asm.py:430-462 | the expansion of a file is the pieces of its items in order: each text line, and for each directive the expansion of its file with exactly the files seen by then |
| IncludeExpansion.SeenIff | tools/asm.py:420-424 | the files seen before an item are those included before, the file itself, and all that its earlier directives reach, directly or not, without passing through these: depth first |
| IncludeExpansion.IncludedIff | tools/asm.py:419-424 | a file is newly included iff a chain of directives reaches it through no file included before |
| IncludeExpansion.InPlace | tools/asm.py:437-460 | cutting a newly included file at any item cuts its expansion: before the cut stand its own earlier lines and all lines of the files opened by then, after it its other lines and all lines of the others |
| IncludeExpansion.Order | tools/asm.py:437-460 | all lines of a file opened before an item come before all lines of one that is not |
| IncludeExpansion.Block | tools/asm.py:437-456 | a directive becomes one contiguous block in place, the expansion of the file it names with exactly the files opened by then, empty if that is one of them |
| IncludeExpansion.Subtree | tools/asm.py:437-456 | at any depth, a newly included file with all that is first reached through it is one contiguous block of the whole output |
| IncludeExpansion.Place | tools/asm.py:457-460 | a text line is output between what stands before it and what stands after it in its file |
| IncludeExpansion.SucceedsIff | tools/asm.py:442-456 | expansion succeeds iff every reachable file exists and has only proper directives |
| IncludeExpansion.Contributions | tools/asm.py:419-424 | a file included before contributes nothing, a new one its own lines exactly once |
| IncludeExpansion.Reader.OpenFile | tools/asm.py:419-462 | the recursive reader with its set of included files terminates and computes that expansion |
| Bus.AccessFaults | src/common/dlx_memory_bus.c:34-215 | an access complains iff it is misaligned, unmapped, unsupported by its device or a store to ROM; then a load gives 0 and nothing changes but the fault state |
| Bus.TimerIgnoresOthers | src/devices/dlx_timer.c:60-91 | aligned accesses to the Timer of other sizes or offsets do nothing, fault never, and read 0 |
| Bus.LoadFits | src/common/dlx_memory_bus.c:34-111 | every load, from devices and after faults too, returns a value that fits its width, so LBU and LHU need no mask |
| Bus.NoCrossing | src/common/dlx_memory_bus.c:19-32 | an aligned access that starts in ROM or RAM ends in it |
| Bus.LoadIsBytes | src/common/dlx_memory_bus.c:34-111 | a load of any width is the big-endian value of the bytes it covers and changes nothing |
| Bus.StoreIsBytes | src/common/dlx_memory_bus.c:113-215 | a store of any width replaces exactly the bytes it covers by the bytes of its datum |
| Bus.StoreSplits | src/common/dlx_memory_bus.c:144-148 | a word or half word store equals its byte stores, most significant byte first |
| Bus.LatestByte | src/common/dlx_memory_bus.c:34-215 | after any accesses, valid or not, every byte holds what the latest store to it put there |
| Bus.LoadLatest | src/common/dlx_memory_bus.c:34-215 | a load of any width after any accesses is the big-endian value of the latest bytes |
| Bus.SplitBigEndian | src/common/dlx_memory_bus.c:58-60 | splitting the big-endian value of a byte sequence gives the sequence back |
| Bus.BigEndianSplit | src/common/dlx_memory_bus.c:144-148 | the big-endian value of the bytes of a number is the number |
| MemoryOfRuns.RunBytes | src/cpu_seq/dlx_seq_core.c:298-334 | after any run from any state every byte is the one put there by the run's latest store to it, or the one it held at the start |
| MemoryOfRuns.StepBytes | src/cpu_seq/dlx_seq_core.c:298-312 | a cycle changes exactly the bytes its store covers |
| Devices.RoutingUnique | src/cpu_seq/main.c:166-181 | the device ranges are disjoint, so routing does not depend on the registration order |
| Devices.TicksCommute | src/devices/dlx_ic.c:50-65 | any two device ticks commute, because an assertion reaches the CPU at once |
| Devices.TickOrder | src/cpu_seq/dlx_seq_core.c:34-38 | the tick phase gives the same devices, lines and CPU line for every permutation of the devices |
| Devices.TickIsSummary | src/cpu_seq/dlx_seq_core.c:34-38 | and it is the order-free description: each device's own tick, and the lines and CPU line that follow from them |
| Devices.InvStep | src/devices/dlx_ic.c:46-84 | no event makes a line spurious: line 0 implies a latched byte, line 1 an expiration not acknowledged, the others stay 0 |
| Devices.InvRun | src/devices/dlx_ic.c:46-84 | the same over every sequence of events |
| Devices.AfterTicks | src/cpu_seq/dlx_seq_core.c:34-43 | after the ticks each line is exactly its device's condition, and the CPU line tells whether there is any: no request is lost |
| Devices.Independence | src/cpu_seq/dlx_seq_core.c:34-61 | the ports and the Timer evolve as if alone: the state of each is its own run over its own ticks, reads and writes |
| Devices.StartupIff | src/devices/dlx_startup_circuit.c:33-45 | over any events the startup bit stays as it was until the first store to it and is 0 from then on |
| MemoryMap.LoadMap | src/cpu_seq/main.c:166-181 | a load is valid iff it is aligned and its address lies in ROM, in RAM, in the Timer's 8 bytes or at one of four device addresses, all given in numbers |
| MemoryMap.StoreMap | src/cpu_seq/main.c:166-181 | a store is valid iff it is aligned and its address lies in RAM, in the Timer's 8 bytes or at one of three device addresses |
| MemoryMap.LoadStartup | src/devices/dlx_startup_circuit.c:33-37 | a load from 0xC0000000 returns the startup bit and changes nothing |
| MemoryMap.LoadInput | src/devices/dlx_input_port.c:69-81 | a load from 0xC0040000 returns the byte in the latch, frees the latch and clears line 0, and changes nothing else |
| MemoryMap.LoadOutput | src/devices/dlx_output_port.c:53-58 | a load from 0xC0080000 returns the ready bit and changes nothing |
| MemoryMap.LoadController | src/devices/dlx_ic.c:69-84 | a load from 0xC00C0000 returns the lowest asserted line and clears only that, or returns 15 and changes nothing |
| MemoryMap.LoadPeriod | src/devices/dlx_timer.c:60-66 | a word load from 0xC0140000 returns the period and changes nothing |
| MemoryMap.LoadStatus | src/devices/dlx_timer.c:67-75 | a word load from 0xC0140004, a half word load two bytes further and a byte load three bytes further return the status and clear it together with line 1 |
| MemoryMap.StoreStartup | src/devices/dlx_startup_circuit.c:39-45 | any store to 0xC0000000 clears the startup bit and changes nothing else |
| MemoryMap.StoreOutput | src/devices/dlx_output_port.c:60-73 | a store of any width to 0xC0080000 sends the low byte and makes the port busy for 3 ticks, or changes nothing if it is busy |
| MemoryMap.StorePower | src/devices/dlx_power_manager.c:36-43 | any store to 0xC0100000 halts the machine and changes nothing else |
| MemoryMap.StoreTimer | src/devices/dlx_timer.c:80-91 | a word store to 0xC0140000 sets the period, zeroes count and status and clears line 1 |
| MemoryMap.Reset | src/common/dlx_state.c:8-53 | at reset the PC is 0, interrupts are disabled, the image is at the start of a ROM otherwise 0, no line is asserted, the startup bit is set, the ports are free and the Timer is off |
| InterruptController.Drain | src/devices/dlx_ic.c:69-84 | reads with no tick in between return the asserted lines in strictly increasing order, clear exactly those, and then return 0xF forever |
| InterruptController.ReadsCount | src/devices/dlx_ic.c:69-84 | the number of asserted lines is the number of reads that find one |
| InterruptController.Controller.AssertInterrupt | src/devices/dlx_ic.c:50-54 | sets one line and the CPU line, and nothing else |
| InterruptController.Controller.DeassertInterrupt | src/devices/dlx_ic.c:46-48 | clears one line and nothing else |
| InterruptController.Controller.Tick | src/devices/dlx_ic.c:56-65 | the loop raises the CPU line iff some line is asserted, and changes no line |
| InterruptController.Controller.Read | src/devices/dlx_ic.c:69-84 | the loop returns the lowest asserted line and clears it, or returns 0xF and changes nothing |
| Timer.Exact | src/devices/dlx_timer.c:43-91 | N ticks after the Timer has been started with period P > 0 (`FromWrite`, `PeriodStored`) the counter is N mod P, the status tells whether an expiration followed the last acknowledgement, and acknowledgements that read 1 plus a pending status never exceed N / P |
| Timer.FromWrite | src/devices/dlx_timer.c:80-91 | from any state, a write of P followed by any events that keep the period leaves period P; for P > 0 the counter is the number of ticks modulo P and status is 1 iff a multiple of P lies after the last acknowledgement; for P = 0 neither ever moves |
| Timer.StatusExact | src/devices/dlx_timer.c:43-78 | status is 1 iff a multiple of P lies after the last acknowledgement's tick count and at or before N |
| Timer.NoneLost | src/devices/dlx_timer.c:43-78 | the expirations seen, by acknowledgements that read 1 or as pending status, are all N / P of them iff an acknowledgement lies between every two consecutive multiples of P up to N |
| Timer.TimerDevice.Tick | src/devices/dlx_timer.c:43-56 | the new fields are those of the specification, and the line is asserted iff the timer is enabled and its status is 1 |
| Timer.TimerDevice.Read | src/devices/dlx_timer.c:60-78 | the value and the new fields are those of the specification, and exactly an acknowledgement clears the line |
| Timer.TimerDevice.Write | src/devices/dlx_timer.c:80-91 | exactly a word write at offset 0 sets the period, zeroes count and status and clears the line |
| InputPort.Conservation | src/devices/dlx_input_port.c:43-81 | bytes taken from the standard input are, in order, the bytes returned by reads made while ready, plus the pending one |
| InputPort.LatchTime | src/devices/dlx_input_port.c:43-65 | a free latch is polled exactly at tick 11 minus the tick count, not before, and takes the byte offered then |
| InputPort.LatchedWithin11 | src/devices/dlx_input_port.c:43-65 | with input always on offer a free latch takes a byte within 11 ticks |
| InputPort.PolledEvery11 | src/devices/dlx_input_port.c:50-64 | a poll that finds nothing restarts the count: while nothing arrives the tick count is its start plus the ticks modulo 11, and the polls are exactly 11 ticks apart |
| InputPort.Held | src/devices/dlx_input_port.c:43-48 | a full latch keeps its byte over any number of ticks and takes nothing from the standard input |
| InputPort.InputDevice.Tick | src/devices/dlx_input_port.c:43-65 | the new fields are those of the specification, and the line is asserted iff a byte is latched afterwards |
| InputPort.InputDevice.Read | src/devices/dlx_input_port.c:69-81 | returns the latched byte, frees the latch and clears the line |
| OutputPort.SentIsEmitted | src/devices/dlx_output_port.c:61-73 | the standard output grows by exactly the bytes written while ready, in order |
| OutputPort.InvKept | src/devices/dlx_output_port.c:41-73 | ready iff the delay is 0, and the delay never exceeds 3, over every run |
| OutputPort.Waits | src/devices/dlx_output_port.c:41-48 | n ticks without an accepted write take n from the delay, down to 0, and the port is ready exactly when it gets there |
| OutputPort.Recovers | src/devices/dlx_output_port.c:41-73 | after an accepted write, k ticks with any reads and any lost writes leave the port ready iff k >= 3 and its delay 3 - k before that; the next write is sent iff k >= 3 |
| OutputPort.Spacing | src/devices/dlx_output_port.c:41-73 | accepted writes are at least 3 ticks apart |
| OutputPort.Throughput | src/devices/dlx_output_port.c:41-73 | N cycles emit at most (N + 2) / 3 bytes |
| OutputPort.PollingLosesNothing | src/devices/dlx_output_port.c:54-73 | when every write follows a read of 1, with no write in between, every byte written is emitted |
| OutputPort.OutputDevice.Tick | src/devices/dlx_output_port.c:41-48 | a ready port stays as it is, a busy one counts one tick down and is ready at 0; nothing is sent |
| OutputPort.OutputDevice.Write | src/devices/dlx_output_port.c:61-73 | sends the low byte and becomes busy when ready, does nothing otherwise |
| Cpu.IenArithmetic | src/cpu_seq/dlx_seq_core.c:43-44 | testing, clearing and setting IEN by masks is arithmetic on bit 0 and keeps the other bits |
| Cpu.MaskedWriteArithmetic | src/cpu_seq/dlx_seq_core.c:188-196 | the write masks let through only bit 0 of SR, all of IAR and nothing of CR |
| Bits.SraRepeatsSign | src/cpu_seq/dlx_seq_core.c:136-139 | the arithmetic shift repeats the sign: the shift of the value, or the complement of the shift of the complement |
| Bits.AndMask | tools/asm.py:182 | masking with n ones is the remainder modulo 2^n |
| Bits.OrAdds | tools/asm.py:213-214 | or-ing a value into the free low bits of a shifted one adds it |
| Bits.Bitwise | src/cpu_seq/dlx_seq_core.c:116-127 | the operators combine their operands bit by bit |
| Safety.RunKeeps | src/cpu_seq/main.c:84-96 | at every point of every run R0 is 0, SR is 0 or 1, CR is 0 or 0x80, the line is 0 between running cycles, the lines are not spurious, and ROM is unchanged |
| Safety.StepKeeps | src/cpu_seq/dlx_seq_core.c:30-66 | one cycle keeps that invariant and ROM |
| Safety.BootInv | src/common/dlx_state.c:8-53 | the initial state satisfies the invariant, whatever the image, RAM and registers |
| Safety.StepIsEvents | src/cpu_seq/dlx_seq_core.c:34-65 | the devices see one tick each, at most one access by the fetch, at most one by the instruction, and the reset of the line, in this order |
| Safety.RunIsEvents | src/cpu_seq/dlx_seq_core.c:30-66 | the devices after a run are the devices after the run's events |
| Safety.StrictRefinesNormal | include/dlx_defs.h:21-27 | a strict run that has not faulted is in exactly the state of the normal run |
| Safety.StrictPassesThrough | include/dlx_defs.h:21-27 | and so is it at every earlier point |
| Faults.StepFaults | src/cpu_seq/dlx_seq_core.c:50-61 | a cycle faults iff INT 0x80 runs with IEN = 0 or, in strict mode only, the fetch or data access is invalid or the encoding is reserved |
| Faults.ExecuteFaults | src/cpu_seq/dlx_seq_core.c:188-206 | the same for the instruction alone |
| Faults.ReservedHasNoEffect | src/cpu_seq/dlx_seq_core.c:351-374 | a reserved encoding changes nothing but the fault state |
| Faults.InvalidStoreHasNoEffect | src/common/dlx_memory_bus.c:113-215 | an invalid store changes no register, byte or device, in either mode |
| Faults.InvalidFetch | src/cpu_seq/dlx_seq_core.c:50-55 | an invalid fetch ends a strict run before the PC moves, and in normal mode only moves the PC to the next word |
| Faults.InvalidLoad | src/cpu_seq/dlx_seq_core.c:313-334 | an invalid load writes 0 to its register, except LW in strict mode, and changes nothing else |
| Uninitialised.ResetRamIrrelevant | src/common/dlx_state.c:21-22 | if every RAM byte fetched or loaded was stored earlier in the run, two runs with different initial RAM agree on registers, devices, state and every stored byte |
| Uninitialised.RunAgrees | src/common/dlx_memory_bus.c:34-215 | the same from any two states that differ only in unknown RAM bytes |
| Uninitialised.StepAgrees | src/cpu_seq/dlx_seq_core.c:30-66 | one cycle keeps the agreement and extends it by the bytes it stores |
| Interrupts.TakenIff | src/cpu_seq/dlx_seq_core.c:40-48 | in every reachable running cycle a hardware interrupt is taken iff IEN is set and, after the ticks, a byte is latched or an expiration is pending |
| Interrupts.HandlerStep | src/cpu_seq/dlx_seq_core.c:351-371 | with IEN = 0, a cycle without MOVI2S to SR or IAR keeps the special registers unless it is RFE, which resumes at IAR with IEN = 1 |
| Interrupts.SectionSafe | src/cpu_seq/dlx_seq_core.c:43-48 | over any number of cycles with no RFE and no MOVI2S to SR or IAR, IEN stays 0, IAR and CR keep their values and no interrupt enters |
| Interrupts.HardwareRoundTrip | src/cpu_seq/dlx_seq_core.c:368-371 | from a hardware entry to the first RFE, even one in the entry cycle itself, no further interrupt enters and execution resumes exactly where it was interrupted, with IEN = 1 |
| Transparency.Transparent | src/cpu_seq/dlx_seq_core.c:40-65 | a run of program cycles interleaved with complete handlers that restore the general registers and the RAM outside x ends with the same ROM, registers, PC, execution state and RAM outside x as the program alone with interrupts disabled, if the program uses no privileged instruction, device or byte of x |
| Transparency.StepSameView | src/cpu_seq/dlx_seq_core.c:50-61 | one such program cycle does the same to both machines, whatever their devices, special registers and x hold |
| Interrupts.FirstRfeReturns | src/cpu_seq/dlx_seq_core.c:368-371 | from any point inside a handler to its first RFE no interrupt enters, and execution resumes at IAR with IEN = 1 |
| Interrupts.SoftwareRoundTrip | src/cpu_seq/dlx_seq_core.c:351-371 | from INT 0x80 to the first RFE no interrupt enters, and execution resumes after the INT |
| Interrupts.NoProgress | src/cpu_seq/dlx_seq_core.c:40-48 | as long as after every RFE some device requests by the ticks of the next cycle, every cycle is a handler cycle with the same IAR: the interrupted program executes nothing |
| Interrupts.Reentry | src/devices/dlx_input_port.c:45-48 | after such an RFE the next cycle starts at 0 again with IAR unchanged, whatever was read from the controller |
| Overrun.ReturnsIntoHandlerIff | src/devices/dlx_timer.c:43-78 | right after a handler's return the next cycle enters it again iff a byte is latched or more whole periods have passed by its tick than by the last acknowledgement |
| Overrun.SlowHandlerIff | src/devices/dlx_timer.c:43-78 | a handler entered at an expiration and acknowledged before the next one is entered again at once, with no latched byte, iff it takes at least P cycles |
| Overrun.ProgramRuns | src/devices/dlx_timer.c:43-56 | if it took h < P cycles, the next P - h cycles belong to an undisturbed program, and the cycle after them enters the handler |
| Overrun.ExpiresIff | src/devices/dlx_timer.c:43-56 | a multiple of P lies between two tick counts iff their numbers of whole periods differ |
| Example.LateAcknowledgement | src/devices/dlx_timer.c:67-75 | with a period of 3, a handler entered at tick 3 that acknowledges after tick 6 and returns at tick 7 took 5 cycles, and the next cycle goes on with the program |
| Example.CanBeLate | src/common/dlx_state.c:8-53 | a machine to which that applies exists for any RAM |
| Overrun.Starves | src/cpu_seq/dlx_seq_core.c:40-48 | if each RFE comes no earlier than the cycle before the next expiration after the last acknowledgement, every cycle is a handler cycle: the program makes no progress |
| Traffic.OneTickPerCycle | src/cpu_seq/dlx_seq_core.c:34-38 | a run has as many tick phases of all devices as cycles, so the two ports and the Timer tick exactly once per cycle, first thing |
| Traffic.InputConserved | src/devices/dlx_input_port.c:43-81 | input conservation over every run of the machine, in terms of what the latch held at each load |
| Driving.InputReturned | src/devices/dlx_input_port.c:69-81 | over every run of the machine the bytes taken from the standard input are, in order, the values returned by the loads of 0xC0040000 made while a byte was latched, plus the pending one |
| Driving.InputLoaded | src/cpu_seq/dlx_seq_core.c:327-330 | LBU from 0xC0040000 puts the latched byte into its register |
| Traffic.InputKeepsUp | src/devices/dlx_input_port.c:50-64 | a run of at least 11 cycles with a free latch and input always on offer consumes a byte |
| Traffic.OutputRate | src/devices/dlx_output_port.c:41-73 | N cycles of any program send at most (N + 2) / 3 bytes, those stored while ready, and a program that polls loses none |
| Traffic.StoresApart | src/devices/dlx_output_port.c:41-73 | two accepted stores of one run of the machine are at least 3 cycles apart |
| Driving.OutputStored | src/devices/dlx_output_port.c:60-73 | an executed store to 0xC0080000 sends the low byte of its register iff the port is ready after the cycle's tick, and sends nothing else |
| Driving.ReadyAgain | src/devices/dlx_output_port.c:41-58 | after an accepted store, until the next accepted one, the port is ready and a load of it returns 1 exactly from the third cycle on |
| Driving.NextStoreSent | src/devices/dlx_output_port.c:41-73 | so the next store is sent iff it comes at least 3 cycles later |
| Driving.PeriodStored | src/devices/dlx_timer.c:80-91 | SW of P to 0xC0140000 leaves the Timer with period P, count 0, status 0 and line 1 clear, from any state |
| Driving.TimerFromStore | src/devices/dlx_timer.c:43-91 | n cycles after that store, while the period is kept, the counter is n mod P and the status is 1 iff a multiple of P lies after the last acknowledgement; after a store of 0 the Timer stays off |
| Driving.StartupRun | src/devices/dlx_startup_circuit.c:33-45 | over every run the startup bit stays as it was until the first store to it and is 0 from then on |
| Traffic.TimerCycles | src/devices/dlx_timer.c:43-91 | timer exactness in cycles of the machine: counter, status, the bound N / P on acknowledgements that read 1 plus a pending status, and when that bound is met |
| Example.HandlerReturns | src/cpu_seq/dlx_seq_core.c:40-48 | a handler of one instruction and RFE, entered by an expired Timer, returns to the interrupted PC with IEN = 1 |
| Example.CanExpire | src/common/dlx_state.c:8-53 | a machine to which that applies exists for any RAM and registers, interrupted at any PC |
| Example.IdleRuns | src/cpu_seq/dlx_seq_core.c:344-346 | the assembled program `LOOP: J LOOP` runs forever from reset, in both modes, whatever RAM and registers hold |
| Loop.LoopIsSteps | src/cpu_seq/main.c:84-96 | the loop leaves the state of n plain cycles, except that TIMEOUT comes exactly at the cycle limit and SIGNAL exactly when the flag is up, and its counter has advanced by n |
| Loop.StepEnds | src/cpu_seq/dlx_seq_core.c:30-66 | a cycle ends a run only by FAULT, HALT or CRITICAL |
| SequentialCore.Dlx.constructor | src/common/dlx_state.c:8-53 | allocates ROM and special registers as zeros, RAM and general registers as anything, and the devices in their reset states |
| SequentialCore.Dlx.InitRegisters | src/common/dlx_state.c:36-56 | R0 is 0, and the others get the configured value if there is one |
| SequentialCore.Dlx.Register | src/common/dlx_state.c:61-73 | appends a device unless there are 15 already |
| SequentialCore.Dlx.SetupDevices | src/cpu_seq/main.c:166-181 | registers the six devices in the order of the address map |
| SequentialCore.Dlx.LoadProgram | src/common/dlx_loader.c:29-50 | accepts at most 64 KB and copies it to the start of ROM, leaving the rest of ROM alone |
| SequentialCore.Dlx.Start | src/cpu_seq/main.c:50-71 | initialisation, device registration and loading leave the boot state of the theorems, with the configured value in every register but R0 if there is one |
| SequentialCore.Dlx.GetDevice | src/common/dlx_memory_bus.c:5-16 | the loop finds the first device whose range contains the address |
| SequentialCore.Dlx.ReadWord | src/common/dlx_memory_bus.c:34-61 | the value and the new state are those of the specified load, byte order by shifts included |
| SequentialCore.Dlx.ReadHalfWord | src/common/dlx_memory_bus.c:63-89 | the same for half words |
| SequentialCore.Dlx.ReadByte | src/common/dlx_memory_bus.c:91-111 | the same for bytes |
| SequentialCore.Dlx.WriteRouted | src/common/dlx_memory_bus.c:128-148 | device or memory write of an aligned access outside ROM, the tail the three writes share |
| SequentialCore.Dlx.WriteWord | src/common/dlx_memory_bus.c:113-149 | the new RAM array, devices and state are those of the specified store |
| SequentialCore.Dlx.WriteHalfWord | src/common/dlx_memory_bus.c:151-186 | the same for half words |
| SequentialCore.Dlx.WriteByte | src/common/dlx_memory_bus.c:188-215 | the same for bytes |
| SequentialCore.Dlx.ReadDevice | src/common/dlx_memory_bus.c:44-49 | the read handlers of the device objects give the value and states that the loads of the address map are stated about |
| SequentialCore.Dlx.WriteDevice | src/devices/dlx_power_manager.c:36-43 | the write handlers give the specified device states, and only the Power Manager stops the machine |
| SequentialCore.Dlx.TickDevices | src/cpu_seq/dlx_seq_core.c:34-38 | the tick loop ticks every registered device in order |
| SequentialCore.Dlx.TakeInterrupt | src/cpu_seq/dlx_seq_core.c:40-48 | saves the PC and clears IEN and CR iff the line and IEN are set |
| SequentialCore.Dlx.DecodeWord | src/cpu_seq/dlx_seq_core.c:90-101 | the shifts and masks extract the fields by their positions |
| SequentialCore.Dlx.ExecuteInterrupt | src/common/dlx_interrupts.c:15-29 | the trap, the halt and the unknown codes |
| SequentialCore.Dlx.ExecuteDecoded | src/cpu_seq/dlx_seq_core.c:103-378 | the switch over registers, memory and devices leaves the specified state, R0 zero |
| SequentialCore.Dlx.StepOnce | src/cpu_seq/dlx_seq_core.c:30-66 | one cycle over the arrays and device objects leaves exactly the state of the specified cycle |
| SequentialCore.Dlx.Iterate | src/cpu_seq/main.c:84-96 | one iteration: signal before the cycle, limit after it |
| SequentialCore.Dlx.RunLoop | src/cpu_seq/main.c:84-96 | the loop leaves exactly the state and counter of the specified run |

## Left out

- The command line, terminal mode, JSON snapshot, debug output, clock reading and the throttling sleep: host input and output only.
- Allocation failures, NULL checks and freeing: a machine starts with its arrays and six devices allocated.
- Function pointers and untyped state pointers of devices and of the interrupt callback: a device is named by its kind, and the CPU interrupt line is a cell the controller object refers to.
- The debug codes 0xF0 and 0xF1 read the host clock: whether that succeeds is an argument of the cycle; the times are not modelled.
- File errors of the loader (open, seek, short read): a program is a byte sequence, and only its size can be wrong.
- Characters of assembler source (comments, commas and parentheses, case folding, number syntax, path resolution): a token carries its readings as mnemonic, register, special register and number, and a file is its list of cleaned lines numbered from 0 among themselves.
- The texts of assembler errors and what of the output file is already written when an instruction is rejected: only which kind of error comes first is modelled.
- Python's `value & mask` on a negative value is written as the non-negative remainder it equals.
- Int32_t conversions and right shifts of negative values, which C leaves to the implementation, are two's complement and arithmetic.
- The run loop need not end: a run is modelled up to the end of a finite sequence of turns of any length.
- The check that the assembler's output file is not one of its input files.
