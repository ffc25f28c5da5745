/** The emulator as it runs: arrays and device objects updated in place, refining the value-level
    model of the bus (src/common/dlx_memory_bus.c), the core (src/cpu_seq/dlx_seq_core.c), the
    state (src/common/dlx_state.c) and the main loop (src/cpu_seq/main.c). */
module SequentialCore {
  import opened Defs
  import opened Bits
  import opened Isa
  import opened InterruptController
  import opened Devices
  import opened Bus
  import opened Cpu
  import opened Loop
  import I = InputPort
  import O = OutputPort
  import T = Timer

  // ---- Byte order by shifts and masks

  /** `ptr[0] << 24 | ptr[1] << 16 | ptr[2] << 8 | ptr[3]` */
  function JoinWord(b0: byte, b1: byte, b2: byte, b3: byte): nat
  {
    Or(Or(Or(b0 * 0x100_0000, b1 * 0x1_0000), b2 * 0x100), b3)
  }

  lemma JoinWordIs(b0: byte, b1: byte, b2: byte, b3: byte)
    ensures JoinWord(b0, b1, b2, b3) == BigEndian([b0, b1, b2, b3])
  {
    hide Or, Pow2;
    Pow2Values();
    OrAt(b0, b1 * 0x1_0000, 24, 0x100_0000);
    OrAt(b0 * 0x100 + b1, b2 * 0x100, 16, 0x1_0000);
    OrAt((b0 * 0x100 + b1) * 0x100 + b2, b3, 8, 0x100);
    assert [b0, b1, b2, b3][..3] == [b0, b1, b2];
    BigEndian3(b0, b1, b2);
  }

  lemma BigEndian3(b0: byte, b1: byte, b2: byte)
    ensures BigEndian([b0]) == b0
    ensures BigEndian([b0, b1]) == b0 * 0x100 + b1
    ensures BigEndian([b0, b1, b2]) == (b0 * 0x100 + b1) * 0x100 + b2
  {
    assert [b0][..0] == [] && [b0, b1][..1] == [b0] && [b0, b1, b2][..2] == [b0, b1];
    assert BigEndian([b0]) == b0;
    assert BigEndian([b0, b1]) == b0 * 0x100 + b1;
  }

  lemma JoinHalfIs(b0: byte, b1: byte)
    ensures Or(b0 * 0x100, b1) == BigEndian([b0, b1])
  {
    hide Or, Pow2;
    Pow2Values();
    OrAt(b0, b1, 8, 0x100);
    BigEndian3(b0, b1, 0);
  }

  /** `(data >> k) & 0xFF` */
  function ByteOf(data: nat, p: nat): byte
    requires p > 0
  {
    Low8(data / p);
    And(data / p, 0xFF)
  }

  lemma Low8(x: nat)
    ensures And(x, 0xFF) == x % 0x100
  {
    hide And, Pow2;
    Pow2Values();
    AndMask(x, 8);
  }

  lemma SplitHalf(data: nat)
    ensures Split(data, 1) == [data % 0x100]
    ensures Split(data, 2) == [data / 0x100 % 0x100, data % 0x100]
  {
    hide Split;
    SplitStep(data / 0x100, 0);
    SplitStep(data, 1);
    SplitStep(data, 0);
  }

  lemma SplitIs(data: nat)
    ensures Split(data, 4) == [data / 0x100_0000 % 0x100, data / 0x1_0000 % 0x100, data / 0x100 % 0x100, data % 0x100]
  {
    hide Split;
    var d1, d2, d3 := data / 0x100, data / 0x1_0000, data / 0x100_0000;
    assert d1 / 0x100 == d2 && d2 / 0x100 == d3;
    SplitHalf(d2);
    SplitStep(d1, 2);
    SplitStep(data, 3);
  }

  lemma SplitStep(data: nat, n: nat)
    ensures Split(data, n + 1) == Split(data / 0x100, n) + [data % 0x100]
    ensures Split(data, 0) == []
  {
  }

  lemma SplitWordIs(data: word)
    ensures Split(data, 4) == [ByteOf(data, 0x100_0000), ByteOf(data, 0x1_0000), ByteOf(data, 0x100), ByteOf(data, 1)]
    ensures Split(data, 2) == [ByteOf(data, 0x100), ByteOf(data, 1)]
    ensures Split(data, 1) == [ByteOf(data, 1)]
  {
    hide And, Split;
    SplitIs(data);
    SplitHalf(data);
    Low8(data / 0x100_0000);
    Low8(data / 0x1_0000);
    Low8(data / 0x100);
    Low8(data / 1);
  }

  // ---- Decoding by shifts and masks

  /** `sign_extend_26` */
  function SignExtend26(imm26: word): int
  {
    var cleared := And(imm26, 0x3FF_FFFF);
    if And(cleared, 0x200_0000) != 0 then Signed(Or32(cleared, 0xFC00_0000)) else Signed(cleared)
  }

  lemma SignExtend26Is(imm26: word)
    requires imm26 < 0x400_0000
    ensures SignExtend26(imm26) == if imm26 < 0x200_0000 then imm26 else imm26 - 0x400_0000
  {
    hide And, Or, Pow2;
    LowBits(imm26);
    Pow2Values();
    assert Pow2(25) == 0x200_0000 by { assert Pow2(26) == 2 * Pow2(25) by { Double(25); } }
    AndBit(imm26, 25);
    OrAt(0x3F, imm26, 26, 0x400_0000);
    OrSymmetric(imm26, 0xFC00_0000);
  }

  lemma {:induction false} OrSymmetric(x: nat, y: nat)
    ensures Or(x, y) == Or(y, x)
    decreases x + y
  {
    if x != 0 && y != 0 { OrSymmetric(x / 2, y / 2); }
  }

  class StartupCircuit {
    var on: bool

    constructor ()
      ensures on
    {
      on := true;
    }
  }

  class Dlx {
    const strict: bool
    const rom: array<byte>
    const ram: array<byte>
    const gpr: array<word>
    const spr: array<word>
    var pc: word
    var exec: ExecState
    var cycles: nat
    var devices: seq<Device>
    const line: InterruptLine
    const ic: Controller
    const startup: StartupCircuit
    const input: I.InputDevice
    const output: O.OutputDevice
    const timer: T.TimerDevice

    ghost predicate Valid()
    {
      && rom.Length == ROM_SIZE && ram.Length == RAM_SIZE && gpr.Length == GPR_COUNT && spr.Length == SPR_COUNT
      && ic.Valid() && ic.controller == line
      && input.ic == ic && input.intIndex == INPUT_LINE
      && timer.ic == ic && timer.intIndex == TIMER_LINE
      && rom != ram && gpr != spr
      && rom as object != gpr && rom as object != spr && ram as object != gpr && ram as object != spr
      && rom as object != ic.lines && ram as object != ic.lines && gpr as object != ic.lines && spr as object != ic.lines
    }

    ghost function Parts(): set<object> { {line, ic.lines, startup, input, output, timer} }

    ghost function All(): set<object> { {this, rom, ram, gpr, spr, line, ic.lines, startup, input, output, timer} }

    ghost function Dev(): DeviceStates
      requires Valid()
      reads Parts()
    {
      DeviceStates(ic.State(), startup.on, input.State(), output.State(), timer.State())
    }

    ghost function State(): Machine
      requires Valid()
      reads All()
    {
      Machine(rom[..], ram[..], gpr[..], spr[..], pc, exec, devices, Dev())
    }

    // ---- Devices

    method TickDevice(id: DeviceId, stdin: Option<byte>)
      requires Valid()
      modifies Parts()
      ensures Dev() == old(Dev()).Tick(id, stdin)
    {
      match id {
        case Ic => ic.Tick();
        case Input => input.Tick(stdin);
        case Output => output.Tick();
        case Timer => timer.Tick();
        case Startup =>
        case Power =>
      }
    }

    method ReadDevice(id: DeviceId, offset: word, bytes: nat) returns (value: word)
      requires Valid() && Readable(id)
      modifies Parts()
      ensures value == old(Dev()).Value(id, offset, bytes)
      ensures Dev() == old(Dev()).Read(id, offset, bytes)
    {
      match id {
        case Ic => value := ic.Read();
        case Startup => value := if startup.on then 1 else 0;
        case Input => value := input.Read();
        case Output => value := output.Read();
        case Timer => value := timer.Read(offset, bytes);
      }
    }

    method WriteDevice(id: DeviceId, offset: word, data: word, bytes: nat)
      requires Valid() && Writable(id)
      modifies Parts(), this`exec
      ensures Dev() == old(Dev()).Write(id, offset, data, bytes)
      ensures exec == if id == Power then HALT else old(exec)
    {
      match id {
        case Startup => startup.on := false;
        case Output => output.Write(data);
        case Power => exec := HALT;
        case Timer => timer.Write(offset, data, bytes);
      }
    }

    // ---- State

    /** The allocations of `dlx_state_init` and `setup_devices`: ROM and the special registers are
        zero, RAM and the general registers hold anything. */
    constructor (strict: bool)
      ensures Valid() && this.strict == strict && fresh(rom) && fresh(ram) && fresh(gpr) && fresh(spr)
      ensures fresh(line) && fresh(ic.lines) && fresh(startup) && fresh(input) && fresh(output) && fresh(timer)
      ensures (forall i :: 0 <= i < ROM_SIZE ==> rom[i] == 0) && (forall i :: 0 <= i < SPR_COUNT ==> spr[i] == 0)
      ensures ic.State() == RESET.ic && startup.on && input.State() == RESET.input
      ensures output.State() == RESET.output && timer.State() == RESET.timer
      ensures pc == 0 && exec == RUNNING && devices == [] && cycles == 0
    {
      this.strict := strict;
      rom := new byte[ROM_SIZE](_ => 0);
      ram := new byte[RAM_SIZE];
      gpr := new word[GPR_COUNT];
      spr := new word[SPR_COUNT](_ => 0);
      pc, exec, cycles, devices := 0, RUNNING, 0, [];
      var cpuLine := new InterruptLine();
      var controller := new Controller(cpuLine);
      line, ic := cpuLine, controller;
      startup := new StartupCircuit();
      input := new I.InputDevice(controller, INPUT_LINE);
      output := new O.OutputDevice();
      timer := new T.TimerDevice(controller, TIMER_LINE);
    }

    /** The registers of `dlx_state_init`: R0 is 0, the others keep their random values unless an
        initial value is configured. */
    method InitRegisters(initGpr: Option<word>)
      requires Valid()
      modifies gpr
      ensures gpr[..][0 := 0] == gpr[..]
      ensures initGpr.Some? ==> forall i :: 1 <= i < GPR_COUNT ==> gpr[i] == initGpr.value
    {
      gpr[0] := 0;
      if initGpr.Some? {
        for i := 1 to GPR_COUNT
          modifies gpr
          invariant gpr[0] == 0 && forall k :: 1 <= k < i ==> gpr[k] == initGpr.value
        {
          gpr[i] := initGpr.value;
        }
      }
    }

    /** `dlx_device_register` */
    method Register(device: Device) returns (ok: bool)
      requires Valid()
      modifies this`devices
      ensures ok <==> |old(devices)| < MAX_DEVICES
      ensures devices == if ok then old(devices) + [device] else old(devices)
    {
      if |devices| >= MAX_DEVICES { return false; }
      devices := devices + [device];
      return true;
    }

    /** `setup_devices` */
    method SetupDevices() returns (ok: bool)
      requires Valid() && devices == []
      modifies this`devices
      ensures ok && State() == old(State()).(devices := DEVICE_MAP)
    {
      for i := 0 to |DEVICE_MAP|
        invariant devices == DEVICE_MAP[..i]
        invariant State() == old(State()).(devices := devices)
      {
        ok := Register(DEVICE_MAP[i]);
        if !ok { return; }
      }
      return true;
    }

    /** `dlx_load_program`: at most 64 KB, copied to the start of ROM. */
    method LoadProgram(image: seq<byte>) returns (ok: bool)
      requires Valid()
      modifies rom
      ensures ok <==> |image| <= ROM_SIZE
      ensures State() == if ok then old(State()).(rom := image + old(rom[..])[|image|..]) else old(State())
    {
      if |image| > ROM_SIZE { return false; }
      for i := 0 to |image|
        invariant rom[..i] == image[..i] && rom[i..] == old(rom[..])[i..]
      {
        rom[i] := image[i];
      }
      assert rom[..] == rom[..|image|] + rom[|image|..];
      return true;
    }

    /** The start of `main`: initialise, register the devices, load the program. */
    static method Start(strict: bool, initGpr: Option<word>, image: seq<byte>) returns (d: Dlx, ok: bool)
      ensures d.Valid() && fresh(d.All()) && d.strict == strict && d.cycles == 0
      ensures ok <==> |image| <= ROM_SIZE
      ensures ok ==> d.State() == Boot(image, d.ram[..], d.gpr[..])
      ensures initGpr.Some? ==> forall i :: 1 <= i < GPR_COUNT ==> d.gpr[i] == initGpr.value
    {
      d := new Dlx(strict);
      d.InitRegisters(initGpr);
      assert d.rom[..] == seq(ROM_SIZE, _ => 0) && d.spr[..] == [0, 0, 0];
      ok := d.SetupDevices();
      ok := d.LoadProgram(image);
      if ok { assert d.rom[..] == image + seq(ROM_SIZE - |image|, _ => 0); }
    }

    // ---- Memory bus

    /** FAULT_OR_WARN */
    method Complain()
      requires Valid()
      modifies this`exec
      ensures State() == old(State()).Complain(strict)
    {
      if strict { exec := FAULT; }
    }

    method GetDevice(address: word) returns (r: Option<Device>)
      requires Valid()
      ensures r == Find(devices, address)
    {
      for i := 0 to |devices|
        invariant Find(devices, address) == Find(devices[i..], address)
      {
        if devices[i].base <= address && address < devices[i].base + devices[i].size { return Some(devices[i]); }
      }
      return None;
    }

    /** The device that an address at or above the device base belongs to. */
    method RouteDevice(address: word) returns (r: Option<Device>)
      requires Valid()
      ensures r == Route(State(), address)
      ensures r.Some? ==> r.value.base <= address
    {
      if address >= DEVICES_BASE { r := GetDevice(address); } else { r := None; }
    }

    /** The MMIO branch of a read: the value, or None to fall through to memory. */
    method ReadMmio(address: word, bytes: nat) returns (r: Option<word>)
      requires Valid()
      modifies Parts()
      ensures r.Some? <==> Route(old(State()), address).Some? && Readable(Route(old(State()), address).value.id)
      ensures State() == old(State()).(dev := Dev())
      ensures r.Some? ==>
        var device := Route(old(State()), address).value;
        && r.value == old(Dev()).Value(device.id, address - device.base, bytes)
        && Dev() == old(Dev()).Read(device.id, address - device.base, bytes)
      ensures r.None? ==> Dev() == old(Dev())
    {
      hide Route, Readable, DeviceStates.Read, DeviceStates.Value;
      var device := RouteDevice(address);
      if device.Some? && Readable(device.value.id) {
        var value := ReadDevice(device.value.id, address - device.value.base, bytes);
        return Some(value);
      }
      return None;
    }

    method WriteMmio(address: word, data: word, bytes: nat) returns (done: bool)
      requires Valid()
      modifies Parts(), this`exec
      ensures done <==> Route(old(State()), address).Some? && Writable(Route(old(State()), address).value.id)
      ensures State() == old(State()).(dev := Dev(), exec := exec)
      ensures done ==>
        var device := Route(old(State()), address).value;
        && Dev() == old(Dev()).Write(device.id, address - device.base, data, bytes)
        && exec == if device.id == Power then HALT else old(exec)
      ensures !done ==> Dev() == old(Dev()) && exec == old(exec)
    {
      hide Route, Writable, DeviceStates.Write;
      var device := RouteDevice(address);
      if device.Some? && Writable(device.value.id) {
        WriteDevice(device.value.id, address - device.value.base, data, bytes);
        return true;
      }
      return false;
    }

    /** The big-endian word at a memory pointer, and its half word and byte. */
    static method WordAt(memory: array<byte>, p: nat) returns (value: word)
      requires p + 4 <= memory.Length
      ensures value == Compose(memory[..][p..p + 4], W32)
    {
      hide Or;
      JoinWordIs(memory[p], memory[p + 1], memory[p + 2], memory[p + 3]);
      assert memory[..][p..p + 4] == [memory[p], memory[p + 1], memory[p + 2], memory[p + 3]];
      WidthPowers(W32);
      value := JoinWord(memory[p], memory[p + 1], memory[p + 2], memory[p + 3]);
    }

    static method HalfWordAt(memory: array<byte>, p: nat) returns (value: word)
      requires p + 2 <= memory.Length
      ensures value == Compose(memory[..][p..p + 2], W16)
    {
      hide Or;
      JoinHalfIs(memory[p], memory[p + 1]);
      assert memory[..][p..p + 2] == [memory[p], memory[p + 1]];
      WidthPowers(W16);
      var high: nat := memory[p];
      value := Or(high * 0x100, memory[p + 1]);
    }

    static method ByteAt(memory: array<byte>, p: nat) returns (value: word)
      requires p < memory.Length
      ensures value == Compose(memory[..][p..p + 1], W8)
    {
      BigEndian3(memory[p], 0, 0);
      assert memory[..][p..p + 1] == [memory[p]];
      value := memory[p];
    }

    method ReadWord(address: word) returns (value: word)
      requires Valid()
      modifies Parts(), this`exec
      ensures Loaded(value, State()) == Read(old(State()), strict, address, W32)
    {
      ReadCases(State(), strict, address, W32);
      hide Read, Route, Compose, Readable, DeviceStates.Read, DeviceStates.Value;
      if address % 4 != 0 { Complain(); return 0; }
      var mmio := ReadMmio(address, 4);
      if mmio.Some? { return mmio.value; }
      if address < ROM_SIZE {
        value := WordAt(rom, address);
      } else if RAM_BASE <= address < RAM_BASE + RAM_SIZE {
        value := WordAt(ram, address - RAM_BASE);
      } else {
        Complain();
        value := 0;
      }
    }

    method ReadHalfWord(address: word) returns (value: word)
      requires Valid()
      modifies Parts(), this`exec
      ensures Loaded(value, State()) == Read(old(State()), strict, address, W16)
    {
      ReadCases(State(), strict, address, W16);
      hide Read, Route, Compose, Readable, DeviceStates.Read, DeviceStates.Value;
      if address % 2 != 0 { Complain(); return 0; }
      var mmio := ReadMmio(address, 2);
      if mmio.Some? { return mmio.value; }
      if address < ROM_SIZE {
        value := HalfWordAt(rom, address);
      } else if RAM_BASE <= address < RAM_BASE + RAM_SIZE {
        value := HalfWordAt(ram, address - RAM_BASE);
      } else {
        Complain();
        value := 0;
      }
    }

    method ReadByte(address: word) returns (value: word)
      requires Valid()
      modifies Parts(), this`exec
      ensures Loaded(value, State()) == Read(old(State()), strict, address, W8)
    {
      ReadCases(State(), strict, address, W8);
      hide Read, Route, Compose, Readable, DeviceStates.Read, DeviceStates.Value;
      var mmio := ReadMmio(address, 1);
      if mmio.Some? { return mmio.value; }
      if address < ROM_SIZE {
        value := ByteAt(rom, address);
      } else if RAM_BASE <= address < RAM_BASE + RAM_SIZE {
        value := ByteAt(ram, address - RAM_BASE);
      } else {
        Complain();
        value := 0;
      }
    }

    static method PutWord(memory: array<byte>, p: nat, data: word)
      requires memory.Length == RAM_SIZE && p + 4 <= RAM_SIZE
      modifies memory
      ensures memory[..] == Overwrite(old(memory[..]), p, Split(data, 4))
    {
      hide Split;
      memory[p] := ByteOf(data, 0x100_0000);
      memory[p + 1] := ByteOf(data, 0x1_0000);
      memory[p + 2] := ByteOf(data, 0x100);
      memory[p + 3] := ByteOf(data, 1);
      SplitWordIs(data);
    }

    static method PutHalfWord(memory: array<byte>, p: nat, data: half)
      requires memory.Length == RAM_SIZE && p + 2 <= RAM_SIZE
      modifies memory
      ensures memory[..] == Overwrite(old(memory[..]), p, Split(data, 2))
    {
      hide Split;
      memory[p] := ByteOf(data, 0x100);
      memory[p + 1] := ByteOf(data, 1);
      SplitWordIs(data);
    }

    static method PutByte(memory: array<byte>, p: nat, data: byte)
      requires memory.Length == RAM_SIZE && p + 1 <= RAM_SIZE
      modifies memory
      ensures memory[..] == Overwrite(old(memory[..]), p, Split(data, 1))
    {
      hide Split;
      memory[p] := ByteOf(data, 1);
      SplitWordIs(data);
    }

    method PutRam(address: word, data: word, w: Width)
      requires Valid() && w.Aligned(address) && InRam(address) && w.Truncate(data) == data
      modifies ram
      ensures address - RAM_BASE + w.Bytes() <= RAM_SIZE
      ensures State() == old(State()).(ram := Overwrite(old(ram[..]), address - RAM_BASE, Split(data, w.Bytes())))
    {
      hide Split, Overwrite;
      match w {
        case W8 => PutByte(ram, address - RAM_BASE, data);
        case W16 => PutHalfWord(ram, address - RAM_BASE, data);
        case W32 => PutWord(ram, address - RAM_BASE, data);
      }
    }

    /** What follows the checks in the three writes: MMIO, then memory. */
    method WriteRouted(address: word, data: word, w: Width)
      requires Valid() && w.Aligned(address) && !InRom(address) && w.Truncate(data) == data
      modifies Parts(), this`exec, ram
      ensures State() == Write(old(State()), strict, address, data, w)
    {
      WriteCases(State(), strict, address, data, w);
      hide Write, Route, Split, Overwrite, Writable, DeviceStates.Write, Width.Aligned, Width.Bytes, Width.Truncate;
      var done := WriteMmio(address, data, w.Bytes());
      if done { return; }
      if RAM_BASE <= address < RAM_BASE + RAM_SIZE {
        PutRam(address, data, w);
      } else {
        Complain();
      }
    }

    method WriteWord(address: word, data: word)
      requires Valid()
      modifies Parts(), this`exec, ram
      ensures State() == Write(old(State()), strict, address, data, W32)
    {
      WriteCases(State(), strict, address, data, W32);
      hide Write;
      if address % 4 != 0 { Complain(); return; }
      if address < ROM_SIZE { Complain(); return; }
      WriteRouted(address, data, W32);
    }

    /** `data` is converted to uint16_t by the call. */
    method WriteHalfWord(address: word, data: half)
      requires Valid()
      modifies Parts(), this`exec, ram
      ensures State() == Write(old(State()), strict, address, data, W16)
    {
      WriteCases(State(), strict, address, data, W16);
      hide Write;
      if address % 2 != 0 { Complain(); return; }
      if address < ROM_SIZE { Complain(); return; }
      WriteRouted(address, data, W16);
    }

    /** `data` is converted to uint8_t by the call. */
    method WriteByte(address: word, data: byte)
      requires Valid()
      modifies Parts(), this`exec, ram
      ensures State() == Write(old(State()), strict, address, data, W8)
    {
      WriteCases(State(), strict, address, data, W8);
      hide Write;
      if address < ROM_SIZE { Complain(); return; }
      WriteRouted(address, data, W8);
    }

    // ---- The core

    /** `decode`: the fields by shifts and masks. */
    static method DecodeWord(raw: word) returns (d: Decoded)
      ensures d == Decode(raw)
    {
      hide And, Or, Pow2, SignExtend26;
      LowBits(raw / 0x400_0000);
      LowBits(raw / 0x20_0000);
      LowBits(raw / 0x1_0000);
      LowBits(raw / 0x800);
      LowBits(raw);
      var imm16: half := And(raw, 0xFFFF);
      var imm26: word := And(raw, 0x3FF_FFFF);
      SignExtend26Is(imm26);
      d := Decoded(And(raw / 0x400_0000, 0x3F), And(raw / 0x20_0000, 0x1F), And(raw / 0x1_0000, 0x1F), And(raw / 0x800, 0x1F),
                   And(raw, 0x3F), imm16, imm26, if imm16 < 0x8000 then imm16 else imm16 - 0x1_0000, SignExtend26(imm26));
    }

    method SetRegister(r: nat, value: word)
      requires Valid() && r < GPR_COUNT
      modifies gpr
      ensures State() == SetReg(old(State()), r, value)
    {
      gpr[r] := value;
    }

    method SetSpecials(sr: word, iar: word, cr: word)
      requires Valid()
      modifies spr
      ensures State() == old(State()).(spr := [sr, iar, cr])
    {
      spr[SPR_SR], spr[SPR_IAR], spr[SPR_CR] := sr, iar, cr;
    }

    method ExecuteRegister(d: Decoded)
      requires Valid() && d.ra < GPR_COUNT && d.rb < GPR_COUNT && d.rc < GPR_COUNT
      modifies gpr, spr, this`exec
      ensures State() == ExecuteR(old(State()), strict, d)
    {
      hide AluR, MaskedWrite;
      var result := AluR(d.func, gpr[d.ra], gpr[d.rb]);
      if result.Some? {
        SetRegister(d.rc, result.value);
      } else if d.func == I_MOVI2S_FUNC {
        if d.rc >= SPR_COUNT { Complain(); } else { spr[d.rc] := MaskedWrite(spr[d.rc], gpr[d.ra], SPR_MASK[d.rc]); }
      } else if d.func == I_MOVS2I_FUNC {
        if d.ra >= SPR_COUNT { Complain(); } else { SetRegister(d.rc, spr[d.ra]); }
      } else {
        Complain();
      }
    }

    method ExecuteLoadInstruction(d: Decoded)
      requires Valid() && d.ra < GPR_COUNT && d.rb < GPR_COUNT && LoadWidth(d.opcode).Some?
      modifies Parts(), this`exec, gpr
      ensures State() == ExecuteLoad(old(State()), strict, d)
    {
      hide Read, Extend;
      var address: word := (gpr[d.ra] + d.imm16Sext) % WORD;
      var value: word;
      ghost var before := State();
      if d.opcode == I_LW {
        value := ReadWord(address);
        assert Loaded(value, State()) == Read(before, strict, address, LoadWidth(d.opcode).value);
        if exec != RUNNING { return; }
      } else if d.opcode == I_LH || d.opcode == I_LHU {
        value := ReadHalfWord(address);
      } else {
        value := ReadByte(address);
      }
      assert Loaded(value, State()) == Read(before, strict, address, LoadWidth(d.opcode).value);
      SetRegister(d.rb, Extend(d.opcode, value));
    }

    method ExecuteStoreInstruction(d: Decoded)
      requires Valid() && d.ra < GPR_COUNT && d.rb < GPR_COUNT && StoreWidth(d.opcode).Some?
      modifies Parts(), this`exec, ram
      ensures State() == Write(old(State()), strict, Address(old(State()), d), old(gpr[d.rb]), StoreWidth(d.opcode).value)
    {
      hide And, Write;
      var address: word := (gpr[d.ra] + d.imm16Sext) % WORD;
      ghost var before := State();
      LowBits(gpr[d.rb]);
      Low8(gpr[d.rb]);
      TruncateTwice(before, strict, address, gpr[d.rb]);
      if d.opcode == I_SW {
        WriteWord(address, gpr[d.rb]);
      } else if d.opcode == I_SH {
        WriteHalfWord(address, And(gpr[d.rb], 0xFFFF));
      } else {
        WriteByte(address, And(gpr[d.rb], 0xFF));
      }
    }

    /** `dlx_exec_debug_interrupt` and the INT branch. */
    method ExecuteInterrupt(code: nat, clockOk: bool)
      requires Valid()
      modifies this`exec, this`pc, spr
      ensures State() == ExecuteInt(old(State()), strict, code, clockOk)
    {
      hide And;
      if code >= 0xF0 {
        if code == 0xF0 || code == 0xF1 {
          if !clockOk { exec := CRITICAL; }
        } else if code == 0xF2 {
          exec := HALT;
        } else {
          Complain();
        }
      } else if code == 0x80 && And(spr[SPR_SR], SR_IEN) != 0 {
        SetSpecials(And(spr[SPR_SR], Not32(SR_IEN)), pc, 0x80);
        pc := 0;
      } else if code == 0x80 {
        exec := FAULT;
      } else {
        Complain();
      }
    }

    method ExecuteTransfer(d: Decoded, clockOk: bool)
      requires Valid() && d.ra < GPR_COUNT && d.rb < GPR_COUNT && d.rc < GPR_COUNT
      requires d.opcode != I_RTYPE && AluI(d, gpr[d.ra]).None? && LoadWidth(d.opcode).None? && StoreWidth(d.opcode).None?
      modifies this`pc, this`exec, gpr, spr
      ensures State() == Dispatch(old(State()), strict, d, clockOk)
    {
      hide And, Or, AluI;
      if d.opcode == I_BNEZ {
        if gpr[d.ra] != 0 { pc := (pc + d.imm16Sext) % WORD; }
      } else if d.opcode == I_BEQZ {
        if gpr[d.ra] == 0 { pc := (pc + d.imm16Sext) % WORD; }
      } else if d.opcode == I_JR {
        pc := gpr[d.ra];
      } else if d.opcode == I_JALR {
        var target := gpr[d.ra];
        gpr[REG_LINK] := pc;
        pc := target;
      } else if d.opcode == I_J {
        pc := (pc + d.imm26Sext) % WORD;
      } else if d.opcode == I_JAL {
        gpr[REG_LINK] := pc;
        pc := (pc + d.imm26Sext) % WORD;
      } else if d.opcode == I_INT {
        ExecuteInterrupt(d.imm26, clockOk);
      } else if d.opcode == I_RFE {
        spr[SPR_SR] := SetIen(spr[SPR_SR]);
        pc := spr[SPR_IAR];
      } else {
        Complain();
      }
    }

    /** `execute` */
    method ExecuteDecoded(d: Decoded, clockOk: bool)
      requires Valid() && d.ra < GPR_COUNT && d.rb < GPR_COUNT && d.rc < GPR_COUNT
      modifies Parts(), this`pc, this`exec, gpr, spr, ram
      ensures State() == Execute(old(State()), strict, d, clockOk)
    {
      hide AluI, AluR, ExecuteLoad, Write;
      if d.opcode == I_RTYPE {
        ExecuteRegister(d);
      } else {
        var result := AluI(d, gpr[d.ra]);
        if result.Some? {
          SetRegister(d.rb, result.value);
        } else if LoadWidth(d.opcode).Some? {
          ExecuteLoadInstruction(d);
        } else if StoreWidth(d.opcode).Some? {
          ExecuteStoreInstruction(d);
        } else {
          ExecuteTransfer(d, clockOk);
        }
      }
      assert State() == Dispatch(old(State()), strict, d, clockOk);
      hide Dispatch;
      SetRegister(0, 0);
    }

    /** The tick loop of a cycle. */
    method TickDevices(stdin: Option<byte>)
      requires Valid()
      modifies Parts()
      ensures State() == old(State()).(dev := TickAll(devices, old(Dev()), stdin))
    {
      hide DeviceStates.Tick;
      for i := 0 to |devices|
        modifies Parts()
        invariant TickAll(devices[i..], Dev(), stdin) == TickAll(devices, old(Dev()), stdin)
      {
        assert devices[i..][0] == devices[i] && devices[i..][1..] == devices[i + 1..];
        TickDevice(devices[i].id, stdin);
      }
      assert State() == old(State()).(dev := Dev());
    }

    method TakeInterrupt()
      requires Valid()
      modifies this`pc, spr
      ensures State() ==
        if old(Dev()).ic.cpuLine && Ien(old(spr[SPR_SR]))
        then old(State()).(spr := [ClearIen(old(spr[SPR_SR])), old(pc), 0], pc := 0) else old(State())
    {
      hide And;
      if line.asserted && And(spr[SPR_SR], SR_IEN) != 0 {
        SetSpecials(And(spr[SPR_SR], Not32(SR_IEN)), pc, 0);
        pc := 0;
      }
    }

    /** The start of a cycle: ticks, then the interrupt check. */
    method EnterCycle(e: Env)
      requires Valid()
      modifies Parts(), this`pc, spr
      ensures State() == Enter(old(State()), e)
    {
      hide TickAll, Ien, ClearIen;
      TickDevices(e.stdin);
      TakeInterrupt();
    }

    method ExecuteFetched(raw: word, clockOk: bool)
      requires Valid()
      modifies Parts(), this`pc, this`exec, gpr, spr, ram
      ensures State() == Finish(Execute(Advance(old(State())), strict, Decode(raw), clockOk))
    {
      hide Execute, Decode, Finish;
      pc := (pc + 4) % WORD;
      var d := DecodeWord(raw);
      ExecuteDecoded(d, clockOk);
      DropLine();
    }

    /** The interrupt line is reset at the end of a cycle. */
    method DropLine()
      requires Valid()
      modifies line
      ensures State() == Finish(old(State()))
    {
      line.asserted := false;
    }

    /** `dlx_seq_step` */
    method StepOnce(e: Env)
      requires Valid()
      modifies Parts(), this`pc, this`exec, gpr, spr, ram
      ensures State() == Step(old(State()), strict, e)
    {
      hide Enter, Execute, Read, Decode, Finish, Advance;
      EnterCycle(e);
      var raw := ReadWord(pc);
      if exec == RUNNING {
        ExecuteFetched(raw, e.clockOk);
      }
    }

    /** One iteration of the loop of `main`. */
    method Iterate(max: nat, turn: Turn)
      requires Valid() && exec == RUNNING && max < CYCLES_WRAP
      modifies Parts(), this`pc, this`exec, gpr, spr, ram, this`cycles
      ensures Outcome(State(), cycles) == Loop.Iteration(old(State()), strict, max, old(cycles), turn)
    {
      hide Step;
      if turn.quit {
        exec := SIGNAL;
        return;
      }
      StepOnce(turn.env);
      ghost var next := State();
      cycles := (cycles + 1) % CYCLES_WRAP;
      assert State() == next;
      if exec == RUNNING && max != 0 && cycles >= max { exec := TIMEOUT; }
    }

    /** The loop of `main`, as far as the environment goes. */
    method RunLoop(max: nat, turns: seq<Turn>)
      requires Valid() && max < CYCLES_WRAP
      modifies Parts(), this`pc, this`exec, gpr, spr, ram, this`cycles
      ensures Outcome(State(), cycles) == Loop.Run(old(State()), strict, max, old(cycles), turns)
    {
      hide Loop.Iteration;
      var i := 0;
      ghost var result := Loop.Run(State(), strict, max, cycles, turns);
      while exec == RUNNING && i < |turns|
        invariant 0 <= i <= |turns|
        invariant result == Loop.Run(State(), strict, max, cycles, turns[i..])
        decreases |turns| - i
      {
        assert turns[i..][0] == turns[i] && turns[i..][1..] == turns[i + 1..];
        Iterate(max, turns[i]);
        i := i + 1;
      }
    }
  }

  /** SH and SB mask their datum before the call converts it. */
  lemma TruncateTwice(m: Machine, strict: bool, address: word, data: word)
    ensures Write(m, strict, address, data % 0x1_0000, W16) == Write(m, strict, address, data, W16)
    ensures Write(m, strict, address, data % 0x100, W8) == Write(m, strict, address, data, W8)
  {
    hide Split, Find;
    assert W16.Truncate(data % 0x1_0000) == W16.Truncate(data) && W8.Truncate(data % 0x100) == W8.Truncate(data);
  }
}
