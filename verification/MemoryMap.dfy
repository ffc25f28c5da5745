/** The address map of docs/architecture/Memory.md: which accesses each address supports, what a load
    returns there and what a store does, in numbers. */
module MemoryMap {
  import opened Defs
  import opened Bits
  import opened Devices
  import opened Bus
  import O = OutputPort
  import T = Timer
  import Cpu

  predicate AlignedFor(address: word, w: Width)
  {
    (w == W16 ==> address % 2 == 0) && (w == W32 ==> address % 4 == 0)
  }

  predicate InTimer(address: word) { 0xC014_0000 <= address <= 0xC014_0007 }

  /** ROM, RAM, Startup Circuit, Input Port, Output Port, Interrupt Controller and Timer. */
  predicate Loadable(address: word)
  {
    || address < 0x1_0000 || 0x4000_0000 <= address < 0x4020_0000
    || address in {0xC000_0000, 0xC004_0000, 0xC008_0000, 0xC00C_0000} || InTimer(address)
  }

  /** RAM, Startup Circuit, Output Port, Power Manager and Timer. */
  predicate Storable(address: word)
  {
    0x4000_0000 <= address < 0x4020_0000 || address in {0xC000_0000, 0xC008_0000, 0xC010_0000} || InTimer(address)
  }

  /** Which loads are valid. */
  lemma LoadMap(address: word, w: Width)
    ensures LoadOk(address, w) <==> AlignedFor(address, w) && Loadable(address)
  {
    Ranges(address);
    assert Supports(address, Readable) <==> exists d :: d in DEVICE_MAP && d.Contains(address) && Readable(d.id);
  }

  /** Which stores are valid. */
  lemma StoreMap(address: word, w: Width)
    ensures StoreOk(address, w) <==> AlignedFor(address, w) && Storable(address)
  {
    Ranges(address);
    assert Supports(address, Writable) <==> exists d :: d in DEVICE_MAP && d.Contains(address) && Writable(d.id);
  }

  /** The six devices and their addresses. */
  lemma Ranges(address: word)
    ensures forall d :: d in DEVICE_MAP ==>
      (d.Contains(address) <==>
        match d.id
        case Startup => address == 0xC000_0000
        case Input => address == 0xC004_0000
        case Output => address == 0xC008_0000
        case Ic => address == 0xC00C_0000
        case Power => address == 0xC010_0000
        case Timer => InTimer(address))
    ensures DEVICE_MAP[0].id == Ic && DEVICE_MAP[1].id == Startup && DEVICE_MAP[2].id == Input
    ensures DEVICE_MAP[3].id == Output && DEVICE_MAP[4].id == Power && DEVICE_MAP[5].id == Timer && |DEVICE_MAP| == 6
  {
  }

  lemma RouteTo(m: Machine, address: word, i: nat)
    requires Installed(m.devices) && i < |DEVICE_MAP| && DEVICE_MAP[i].Contains(address)
    ensures Route(m, address) == Some(DEVICE_MAP[i])
  {
    RoutingUnique(m.devices, DEVICE_MAP[i], address);
  }

  // ---- Loads

  /** The Startup Circuit returns its bit. */
  lemma LoadStartup(m: Machine, strict: bool, w: Width)
    requires Installed(m.devices)
    ensures Read(m, strict, 0xC000_0000, w) == Loaded(if m.dev.startup then 1 else 0, m)
  {
    Ranges(0xC000_0000);
    RouteTo(m, 0xC000_0000, 1);
    ReadCases(m, strict, 0xC000_0000, w);
    hide Read, Route, Find;
  }

  /** The Input Port returns the latched byte, pending or not, frees the latch and withdraws line 0. */
  lemma LoadInput(m: Machine, strict: bool, w: Width)
    requires Installed(m.devices)
    ensures var r := Read(m, strict, 0xC004_0000, w);
      && r.value == m.dev.input.data
      && r.m == m.(dev := m.dev.(input := m.dev.input.(ready := false), ic := m.dev.ic.(lines := m.dev.ic.lines[0 := false])))
  {
    Ranges(0xC004_0000);
    RouteTo(m, 0xC004_0000, 2);
    ReadCases(m, strict, 0xC004_0000, w);
    hide Read, Route, Find;
  }

  /** The Output Port returns its ready bit. */
  lemma LoadOutput(m: Machine, strict: bool, w: Width)
    requires Installed(m.devices)
    ensures Read(m, strict, 0xC008_0000, w) == Loaded(if m.dev.output.ready then 1 else 0, m)
  {
    Ranges(0xC008_0000);
    RouteTo(m, 0xC008_0000, 3);
    ReadCases(m, strict, 0xC008_0000, w);
    hide Read, Route, Find;
  }

  /** The Interrupt Controller returns the lowest asserted line and clears it, or 15 when there is none. */
  lemma LoadController(m: Machine, strict: bool, w: Width)
    requires Installed(m.devices)
    ensures var r, lines := Read(m, strict, 0xC00C_0000, w), m.dev.ic.lines;
      && |lines| == 15
      && ((forall i :: 0 <= i < 15 ==> !lines[i]) ==> r == Loaded(15, m))
      && ((exists i :: 0 <= i < 15 && lines[i]) ==>
           && r.value < 15 && lines[r.value] && (forall i :: 0 <= i < r.value ==> !lines[i])
           && r.m == m.(dev := m.dev.(ic := m.dev.ic.(lines := lines[r.value := false]))))
  {
    Ranges(0xC00C_0000);
    RouteTo(m, 0xC00C_0000, 0);
    ReadCases(m, strict, 0xC00C_0000, w);
    hide Read, Route, Find;
  }

  /** The Timer returns its period to a word load of its first word. */
  lemma LoadPeriod(m: Machine, strict: bool)
    requires Installed(m.devices)
    ensures Read(m, strict, 0xC014_0000, W32) == Loaded(m.dev.timer.period, m)
  {
    TimerAt(m, strict, 0xC014_0000, W32);
    hide Read;
  }

  /** Where the status is read: in the last byte, half word or whole of the second word. */
  function StatusAddress(w: Width): word { match w case W32 => 0xC014_0004 case W16 => 0xC014_0006 case W8 => 0xC014_0007 }

  /** The Timer returns its status there, and clears it together with line 1. */
  lemma LoadStatus(m: Machine, strict: bool, w: Width)
    requires Installed(m.devices)
    ensures var r := Read(m, strict, StatusAddress(w), w);
      && r.value == (if m.dev.timer.status then 1 else 0)
      && r.m == m.(dev := m.dev.(timer := m.dev.timer.(status := false), ic := m.dev.ic.(lines := m.dev.ic.lines[1 := false])))
  {
    TimerAt(m, strict, StatusAddress(w), w);
    hide Read;
  }

  lemma TimerAt(m: Machine, strict: bool, address: word, w: Width)
    requires Installed(m.devices) && InTimer(address) && AlignedFor(address, w)
    ensures var offset := address - 0xC014_0000;
      Read(m, strict, address, w) == Loaded(m.dev.Value(Timer, offset, w.Bytes()), m.(dev := m.dev.Read(Timer, offset, w.Bytes())))
  {
    Ranges(address);
    RouteTo(m, address, 5);
    ReadCases(m, strict, address, w);
    hide Read, Route, Find, DeviceStates.Value, DeviceStates.Read;
  }

  // ---- Stores

  /** Any store to the Startup Circuit clears its bit. */
  lemma StoreStartup(m: Machine, strict: bool, data: word, w: Width)
    requires Installed(m.devices)
    ensures Write(m, strict, 0xC000_0000, data, w) == m.(dev := m.dev.(startup := false))
  {
    Ranges(0xC000_0000);
    RouteTo(m, 0xC000_0000, 1);
    WriteCases(m, strict, 0xC000_0000, data, w);
    hide Write, Route, Find;
  }

  /** Truncation keeps the low byte. */
  lemma LowByte(w: Width, data: word)
    ensures w.Truncate(data) % 0x100 == data % 0x100
  {
    match w
    case W8 =>
    case W16 =>
      var q, r := data / 0x1_0000, data % 0x1_0000;
      var k, low := r / 0x100, r % 0x100;
      assert data == (q * 0x100 + k) * 0x100 + low;
      ModUnique(data, 0x100, q * 0x100 + k, low);
    case W32 =>
  }

  /** A store to the Output Port sends the low byte and makes it busy for 3 ticks, or is lost if it is busy. */
  lemma StoreOutput(m: Machine, strict: bool, data: word, w: Width)
    requires Installed(m.devices)
    ensures Write(m, strict, 0xC008_0000, data, w) ==
      if m.dev.output.ready then m.(dev := m.dev.(output := O.OutputState(false, 3, m.dev.output.sent + [data % 0x100]))) else m
  {
    Ranges(0xC008_0000);
    RouteTo(m, 0xC008_0000, 3);
    WriteCases(m, strict, 0xC008_0000, data, w);
    LowByte(w, data);
    hide Write, Route, Find, Width.Truncate;
  }

  /** Any store to the Power Manager halts the machine. */
  lemma StorePower(m: Machine, strict: bool, data: word, w: Width)
    requires Installed(m.devices)
    ensures Write(m, strict, 0xC010_0000, data, w) == m.(exec := HALT)
  {
    Ranges(0xC010_0000);
    RouteTo(m, 0xC010_0000, 4);
    WriteCases(m, strict, 0xC010_0000, data, w);
    hide Write, Route, Find;
  }

  /** A word store to the Timer's first word sets the period, restarts the count with nothing pending, and
      withdraws line 1. */
  lemma StoreTimer(m: Machine, strict: bool, data: word)
    requires Installed(m.devices)
    ensures Write(m, strict, 0xC014_0000, data, W32) ==
      m.(dev := m.dev.(timer := T.TimerState(data, 0, false), ic := m.dev.ic.(lines := m.dev.ic.lines[1 := false])))
  {
    Ranges(0xC014_0000);
    RouteTo(m, 0xC014_0000, 5);
    WriteCases(m, strict, 0xC014_0000, data, W32);
    hide Write, Route, Find;
  }

  // ---- Reset

  /** At reset the PC is 0, interrupts are disabled, nothing is requested or pending, the Startup Circuit is set,
      the ports are free and the Timer is off. */
  lemma Reset(image: seq<byte>, ram: Ram, gpr: Gprs)
    requires |image| <= 0x1_0000
    ensures var m := Cpu.Boot(image, ram, gpr);
      && m.pc == 0 && m.exec == RUNNING && m.spr == [0, 0, 0] && m.gpr[0] == 0 && m.gpr[1..] == gpr[1..] && m.ram == ram
      && |m.rom| == 0x1_0000 && m.rom[..|image|] == image && (forall i :: |image| <= i < 0x1_0000 ==> m.rom[i] == 0)
      && (forall i :: 0 <= i < 15 ==> !m.dev.ic.lines[i]) && !m.dev.ic.cpuLine
      && m.dev.startup && !m.dev.input.ready && m.dev.output.ready && m.dev.output.sent == []
      && m.dev.timer.period == 0 && !m.dev.timer.status
      && Installed(m.devices)
  {
  }
}
